/**
 The evolutionary optimizer: the layout score, mutation (position jitter and
 type swap), the three-tier attempt to add one building, one generation of
 truncation selection, the evolution of one layout and the search over a
 pool of layouts.

 Random draws read the stream `s` at the cursor, as in the generator. The
 cosine and sine of the coverage tier come in as the parameter `polar`:
 `polar(angle, d)` stands for `(d * cos(angle), d * sin(angle))`.
 */
module Evolution {

  import opened Config
  import opened Oracle
  import opened Geometry
  import opened Wrappers
  import opened Ranking
  import opened Generator

  /** The score of every layout that breaks a rule. */
  const INVALID_SCORE: real := -1000.0

  /** `2 * math.pi` as a double. */
  const TAU: real := 6.283185307179586

  // ----------------------------------------------------------------------
  // Scoring

  function CenterXs(layout: Layout): (xs: seq<real>)
    ensures |xs| == |layout| && forall i :: 0 <= i < |layout| ==> xs[i] == Center(layout[i]).x
  {
    seq(|layout|, i requires 0 <= i < |layout| => Center(layout[i]).x)
  }

  function CenterYs(layout: Layout): (ys: seq<real>)
    ensures |ys| == |layout| && forall i :: 0 <= i < |layout| ==> ys[i] == Center(layout[i]).y
  {
    seq(|layout|, i requires 0 <= i < |layout| => Center(layout[i]).y)
  }

  /** `max(xs)`: an element of `xs` that no element exceeds. */
  function MaxOf(xs: seq<real>): (m: real)
    requires |xs| > 0
    ensures m in xs && forall i :: 0 <= i < |xs| ==> xs[i] <= m
  {
    if |xs| == 1 then xs[0]
    else
      var rest := MaxOf(xs[1..]);
      assert forall i :: 1 <= i < |xs| ==> xs[i] == xs[1..][i - 1];
      if rest > xs[0] then rest else xs[0]
  }

  /** `min(xs)`: an element of `xs` that exceeds no element. */
  function MinOf(xs: seq<real>): (m: real)
    requires |xs| > 0
    ensures m in xs && forall i :: 0 <= i < |xs| ==> m <= xs[i]
  {
    if |xs| == 1 then xs[0]
    else
      var rest := MinOf(xs[1..]);
      assert forall i :: 1 <= i < |xs| ==> xs[i] == xs[1..][i - 1];
      if rest < xs[0] then rest else xs[0]
  }

  /** `max(xs) - min(xs) if xs else 0`: the largest difference between two values. */
  function Spread(xs: seq<real>): (d: real)
    ensures 0.0 <= d
    ensures forall i, j :: 0 <= i < |xs| && 0 <= j < |xs| ==> xs[i] - xs[j] <= d
    ensures |xs| > 0 ==> exists i, j :: 0 <= i < |xs| && 0 <= j < |xs| && xs[i] - xs[j] == d
  {
    if |xs| == 0 then 0.0 else MaxOf(xs) - MinOf(xs)
  }

  /** The spread is the difference between a largest and a smallest value. */
  lemma {:induction false} SpreadIsRange(xs: seq<real>, hi: nat, lo: nat)
    requires hi < |xs| && lo < |xs|
    requires forall k :: 0 <= k < |xs| ==> xs[lo] <= xs[k] <= xs[hi]
    ensures Spread(xs) == xs[hi] - xs[lo]
  {
    var d := Spread(xs);
    var i, j :| 0 <= i < |xs| && 0 <= j < |xs| && xs[i] - xs[j] == d;
    assert xs[i] <= xs[hi] && xs[lo] <= xs[j];
  }

  /** Half the sum of the horizontal and vertical spreads of the building centers. */
  function Distribution(layout: Layout): (d: real)
    ensures 0.0 <= d
  {
    if layout == [] then 0.0 else (Spread(CenterXs(layout)) + Spread(CenterYs(layout))) / 2.0
  }

  /** 15 points per A building beyond three more than the B buildings. */
  function BalancePenalty(countA: int, countB: int): (p: real)
    ensures 0.0 <= p
    ensures p == 0.0 <==> countA <= countB + 3
    ensures 0 <= countB ==> p <= 15.0 * Iterations(countA) as real
  {
    15.0 * Iterations(countA - countB - 3) as real
  }

  /**
   The weighted objective of a layout that passes every rule. With catalogue
   footprints it is at least 140 per building: 100 for the building and at
   least 40 for its area, which outweighs the balance penalty of at most 15.
   */
  function Quality(layout: Layout): (q: real)
    ensures AllWellTyped(layout) ==> q >= 140.0 * |layout| as real
  {
    var q := 100.0 * |layout| as real + TotalArea(layout) * 0.1 + Distribution(layout) * 0.5
      - BalancePenalty(CountKind(layout, A), CountKind(layout, B));
    if AllWellTyped(layout) then
      TotalAreaByKind(layout);
      CountsAddUp(layout);
      q
    else
      q
  }

  /** The score: the objective when every rule holds, the fixed penalty score otherwise. */
  function ScoreLayout(layout: Layout): (score: real)
    ensures !LayoutValid(layout, NEIGHBOR_RADIUS).all ==> score == INVALID_SCORE
    ensures LayoutValid(layout, NEIGHBOR_RADIUS).all ==> score == Quality(layout)
  {
    if LayoutValid(layout, NEIGHBOR_RADIUS).all then Quality(layout) else INVALID_SCORE
  }

  /** With catalogue footprints, a layout scores above the penalty score exactly when it is valid. */
  lemma {:induction false} ScoreSeparatesValidity(layout: Layout)
    requires AllWellTyped(layout)
    ensures ScoreLayout(layout) > INVALID_SCORE <==> LayoutValid(layout, NEIGHBOR_RADIUS).all
    ensures ScoreLayout(layout) >= INVALID_SCORE
  {
    var q := Quality(layout);
  }

  // ----------------------------------------------------------------------
  // Mutation

  /** `max(lo, min(v, hi))`. */
  function Clamp(v: real, lo: real, hi: real): (c: real)
    ensures lo <= c
    ensures lo <= hi ==> c <= hi
    ensures lo <= v <= hi ==> c == v
  {
    Max(lo, Min(v, hi))
  }

  /** A building whose origin was clamped into the sampling range of its footprint is inside the site. */
  lemma ClampedIsInside(r: Rect, x: real, y: real)
    requires r.w <= SITE_WIDTH - 2.0 * SETBACK && r.h <= SITE_HEIGHT - 2.0 * SETBACK
    ensures InsideSite(r.(x := Clamp(x, SETBACK, SITE_WIDTH - SETBACK - r.w),
                           y := Clamp(y, SETBACK, SITE_HEIGHT - SETBACK - r.h)))
  {
  }

  /** A position shift by (dx, dy), clamped to the sampling range of the building's footprint. */
  function Jitter(r: Rect, dx: real, dy: real): (j: Rect)
    ensures j.w == r.w && j.h == r.h && j.kind == r.kind
    ensures Shifted(r, j.x, j.y, dx, dy)
  {
    r.(x := Clamp(r.x + dx, SETBACK, SITE_WIDTH - SETBACK - r.w),
       y := Clamp(r.y + dy, SETBACK, SITE_HEIGHT - SETBACK - r.h))
  }

  /**
   The origin (x, y) results from shifting `r` by at most (dx, dy): it lies in
   the sampling range of `r`'s footprint when that footprint fits, and it
   moved by no more than the shift when `r` was inside the site.
   */
  predicate Shifted(r: Rect, x: real, y: real, dx: real, dy: real)
  {
    SETBACK <= x && SETBACK <= y
    && (r.w <= SITE_WIDTH - 2.0 * SETBACK ==> x <= SITE_WIDTH - SETBACK - r.w)
    && (r.h <= SITE_HEIGHT - 2.0 * SETBACK ==> y <= SITE_HEIGHT - SETBACK - r.h)
    && (InsideSite(r) ==> Abs(x - r.x) <= Abs(dx) && Abs(y - r.y) <= Abs(dy))
  }

  /** Moved by a jitter of at most 10 in each direction. */
  predicate Jittered(r: Rect, m: Rect)
  {
    Shifted(r, m.x, m.y, 10.0, 10.0)
  }

  function Abs(v: real): real
  {
    if v < 0.0 then -v else v
  }

  /** The building retyped to `k` with the catalogue footprint of `k`, at the same origin. */
  function Retype(r: Rect, k: Kind): (t: Rect)
    ensures WellTyped(t) && t.kind == k && t.x == r.x && t.y == r.y
  {
    r.(w := Width(k), h := Height(k), kind := k)
  }

  /** Same origin as `r`. */
  predicate SameOrigin(r: Rect, m: Rect)
  {
    m.x == r.x && m.y == r.y
  }

  /** The first mutation step: each building is jittered by up to 10 in each direction with probability `rate`. */
  method JitterPositions(layout: Layout, rate: real, s: Stream, pos: nat) returns (m: Layout, pos': nat)
    ensures pos <= pos'
    ensures |m| == |layout|
    ensures forall k :: 0 <= k < |m| ==> m[k].kind == layout[k].kind && m[k].w == layout[k].w && m[k].h == layout[k].h
    ensures forall k :: 0 <= k < |m| ==> SameOrigin(layout[k], m[k]) || Jittered(layout[k], m[k])
    ensures 1.0 <= rate ==> forall k :: 0 <= k < |m| ==> Jittered(layout[k], m[k])
    ensures rate <= 0.0 ==> m == layout
  {
    m := layout;
    pos' := pos;
    for i := 0 to |m|
      invariant pos <= pos'
      invariant |m| == |layout|
      invariant forall k :: i <= k < |m| ==> m[k] == layout[k]
      invariant forall k :: 0 <= k < i ==> m[k].kind == layout[k].kind && m[k].w == layout[k].w && m[k].h == layout[k].h
      invariant forall k :: 0 <= k < i ==> SameOrigin(layout[k], m[k]) || Jittered(layout[k], m[k])
      invariant 1.0 <= rate ==> forall k :: 0 <= k < i ==> Jittered(layout[k], m[k])
      invariant rate <= 0.0 ==> m == layout
    {
      var u := s(pos');
      pos' := pos' + 1;
      if u < rate {
        var dx := Uniform(s, pos', -10.0, 10.0);
        var dy := Uniform(s, pos' + 1, -10.0, 10.0);
        pos' := pos' + 2;
        m := m[i := Jitter(m[i], dx, dy)];
      }
    }
  }

  /**
   The second mutation step: with probability `rate / 2` one random building
   of a non-empty layout changes to the other type and its footprint, in place.
   */
  method SwapOneType(layout: Layout, rate: real, s: Stream, pos: nat) returns (m: Layout, pos': nat)
    requires |layout| > 0
    ensures pos < pos'
    ensures |m| == |layout|
    ensures rate <= 0.0 ==> m == layout
    ensures forall k :: 0 <= k < |m| ==> m[k] == layout[k] || m[k] == Retype(layout[k], Flip(layout[k].kind))
    ensures forall i, j :: 0 <= i < j < |m| ==> m[i] == layout[i] || m[j] == layout[j]
  {
    m := layout;
    var u := s(pos);
    pos' := pos + 1;
    if u < rate * 0.5 {
      var idx := RandInt(s, pos', 0, |m| - 1);
      pos' := pos' + 1;
      m := m[idx := Retype(m[idx], Flip(m[idx].kind))];
    }
  }

  /**
   `m` is a possible mutation of `layout` at `rate`: the same length; nothing
   changes at rate 0 or below; every building keeps its origin or is
   jittered, and every one is jittered at rate 1 or above; a building that
   keeps its type keeps its footprint, one that changes type takes the other
   type and its footprint; at most one building changes type; catalogue
   footprints stay catalogue footprints.
   */
  predicate MutationOf(layout: Layout, m: Layout, rate: real)
  {
    && |m| == |layout|
    && (rate <= 0.0 ==> m == layout)
    && (forall k :: 0 <= k < |m| ==> SameOrigin(layout[k], m[k]) || Jittered(layout[k], m[k]))
    && (1.0 <= rate ==> forall k :: 0 <= k < |m| ==> Jittered(layout[k], m[k]))
    && (forall k :: 0 <= k < |m| && m[k].kind == layout[k].kind ==>
          m[k].w == layout[k].w && m[k].h == layout[k].h)
    && (forall k :: 0 <= k < |m| && m[k].kind != layout[k].kind ==>
          m[k].kind == Flip(layout[k].kind) && WellTyped(m[k]))
    && (forall i, j :: 0 <= i < j < |m| ==> m[i].kind == layout[i].kind || m[j].kind == layout[j].kind)
    && (AllWellTyped(layout) ==> AllWellTyped(m))
  }

  /**
   Mutation: a jitter of the positions, then on a non-empty layout an
   occasional type swap.
   */
  method MutateLayout(layout: Layout, rate: real, s: Stream, pos: nat) returns (m: Layout, pos': nat)
    ensures pos <= pos'
    ensures MutationOf(layout, m, rate)
  {
    if |layout| == 0 {
      return layout, pos;
    }
    var jittered;
    jittered, pos' := JitterPositions(layout, rate, s, pos);
    m, pos' := SwapOneType(jittered, rate, s, pos');
    forall k | 0 <= k < |m| && m[k] != jittered[k] ensures SameOrigin(jittered[k], m[k]) {
      assert m[k] == Retype(jittered[k], Flip(jittered[k].kind));
    }
  }

  // ----------------------------------------------------------------------
  // Adding one building

  /** The strategy that produced a building. */
  datatype Tier = Coverage | Boundary | Fallback

  /** Some A building has no B building within the neighbour radius. */
  predicate NeedsB(layout: Layout)
  {
    exists a :: a in layout && a.kind == A && !CloseB(layout, a, NEIGHBOR_RADIUS)
  }

  /** The search for an A building without a close B, stopping at the first one. */
  method NeedsCoverage(layout: Layout) returns (needs: bool)
    ensures needs <==> NeedsB(layout)
  {
    var towersA := OfKind(layout, A);
    var towersB := OfKind(layout, B);
    needs := false;
    var i := 0;
    while i < |towersA| && !needs
      invariant 0 <= i <= |towersA|
      invariant !needs ==> forall k :: 0 <= k < i ==> CloseB(layout, towersA[k], NEIGHBOR_RADIUS)
      invariant needs ==> NeedsB(layout)
      decreases |towersA| - i, if needs then 0 else 1
    {
      var j := 0;
      while j < |towersB| && !Near(towersA[i], towersB[j], NEIGHBOR_RADIUS)
        invariant 0 <= j <= |towersB|
        invariant forall k :: 0 <= k < j ==> !Near(towersA[i], towersB[k], NEIGHBOR_RADIUS)
      {
        j := j + 1;
      }
      if j == |towersB| {
        assert towersA[i] in towersA;
        needs := true;
      } else {
        assert towersB[j] in towersB;
        i := i + 1;
      }
    }
    if !needs {
      forall a | a in layout && a.kind == A ensures CloseB(layout, a, NEIGHBOR_RADIUS) {
        assert a in towersA;
      }
    }
  }

  /**
   The B building of one coverage attempt that reads the draws at `p`, `p + 1`
   and `p + 2`: a random A building, an angle in [0, 2π] and a distance in
   [25, 55] from that building's center, clamped into the site.
   */
  function CoverageCandidate(layout: Layout, s: Stream, p: nat, polar: (real, real) -> (real, real)): (r: Rect)
    requires CountKind(layout, A) > 0
    ensures r.kind == B && WellTyped(r) && InsideSite(r)
  {
    var towersA := OfKind(layout, A);
    var c := Center(towersA[Below(s, p, |towersA|)]);
    var offset := polar(Uniform(s, p + 1, 0.0, TAU), Uniform(s, p + 2, 25.0, 55.0));
    var candidate := Rect(c.x + offset.0 - Width(B) / 2.0, c.y + offset.1 - Height(B) / 2.0, Width(B), Height(B), B);
    ClampedIsInside(candidate, candidate.x, candidate.y);
    candidate.(x := Clamp(candidate.x, SETBACK, SITE_WIDTH - SETBACK - Width(B)),
               y := Clamp(candidate.y, SETBACK, SITE_HEIGHT - SETBACK - Height(B)))
  }

  /** The candidate of the `k`-th attempt of a coverage tier that starts at `pos`. */
  function CoverageAttempt(layout: Layout, s: Stream, pos: nat, k: nat, polar: (real, real) -> (real, real)): Rect
    requires CountKind(layout, A) > 0
  {
    CoverageCandidate(layout, s, pos + 3 * k, polar)
  }

  /** Every one of the `attempts` candidates of a coverage tier that starts at `pos` fails the placement checks. */
  predicate CoverageAttemptsFail(layout: Layout, attempts: int, s: Stream, pos: nat, polar: (real, real) -> (real, real))
    requires CountKind(layout, A) > 0
  {
    forall k: nat :: k < Iterations(attempts) ==> !Placeable(CoverageAttempt(layout, s, pos, k, polar), layout)
  }

  /**
   A coverage tier that starts at `pos` places `r`: the candidate of some
   attempt `k` within the budget, which passes the placement checks after
   every earlier candidate failed them, with `pos'` the cursor after it.
   */
  ghost predicate CoveragePlacedAt(layout: Layout, attempts: int, s: Stream, pos: nat, polar: (real, real) -> (real, real),
                                   r: Rect, pos': nat)
    requires CountKind(layout, A) > 0
  {
    exists k: nat :: k < Iterations(attempts) && pos' == pos + 3 * k + 3 && r == CoverageAttempt(layout, s, pos, k, polar)
      && Placeable(r, layout) && forall j: nat :: j < k ==> !Placeable(CoverageAttempt(layout, s, pos, j, polar), layout)
  }

  /**
   The coverage tier: up to `attempts` B buildings placed near a random A
   building. It returns the first candidate that passes the placement
   checks, after every earlier candidate failed, or None when all of them
   failed.
   */
  method CoverageTier(layout: Layout, attempts: int, s: Stream, pos: nat, polar: (real, real) -> (real, real))
    returns (r: Option<Rect>, pos': nat)
    requires CountKind(layout, A) > 0
    ensures pos <= pos' <= pos + 3 * Iterations(attempts)
    ensures r.None? ==> pos' == pos + 3 * Iterations(attempts) && CoverageAttemptsFail(layout, attempts, s, pos, polar)
    ensures r.Some? ==> pos + 3 <= pos' && r.value == CoverageCandidate(layout, s, pos' - 3, polar)
    ensures r.Some? ==>
      exists k: nat :: k < Iterations(attempts) && pos' == pos + 3 * k + 3 && r.value == CoverageAttempt(layout, s, pos, k, polar)
    ensures r.Some? ==> r.value.kind == B && WellTyped(r.value) && Placeable(r.value, layout)
    ensures forall k: nat :: pos + 3 * k < pos' - (if r.Some? then 3 else 0) ==>
      !Placeable(CoverageAttempt(layout, s, pos, k, polar), layout)
    ensures r.Some? ==> CoveragePlacedAt(layout, attempts, s, pos, polar, r.value, pos')
  {
    var n := Iterations(attempts);
    pos' := pos;
    var a := 0;
    while a < n
      invariant 0 <= a <= n && pos' == pos + 3 * a
      invariant forall k: nat :: k < a ==> !Placeable(CoverageAttempt(layout, s, pos, k, polar), layout)
    {
      var rect := CoverageCandidate(layout, s, pos', polar);
      assert rect == CoverageAttempt(layout, s, pos, a, polar);
      pos' := pos' + 3;
      if InsideSite(rect) && !IntersectsPlaza(rect) && SpacingOk(rect, layout, MIN_SPACING) {
        return Some(rect), pos';
      }
      a := a + 1;
    }
    return None, pos';
  }

  /**
   The eight anchor origins of the boundary tier for an A footprint (four
   draws): one on each setback line at a random offset along it, and one 5
   inside each corner. Every anchor is in the sampling range.
   */
  function BoundaryZones(s: Stream, pos: nat): (zones: seq<Point>)
    ensures |zones| == 8
    ensures forall i :: 0 <= i < 8 ==> InsideSite(Rect(zones[i].x, zones[i].y, Width(A), Height(A), A))
    ensures zones[0].x == SETBACK && zones[1].x == SITE_WIDTH - SETBACK - Width(A)
    ensures zones[2].y == SETBACK && zones[3].y == SITE_HEIGHT - SETBACK - Height(A)
  {
    var w, h := Width(A), Height(A);
    [ Point(SETBACK, Uniform(s, pos, SETBACK, SITE_HEIGHT - SETBACK - h)),
      Point(SITE_WIDTH - SETBACK - w, Uniform(s, pos + 1, SETBACK, SITE_HEIGHT - SETBACK - h)),
      Point(Uniform(s, pos + 2, SETBACK, SITE_WIDTH - SETBACK - w), SETBACK),
      Point(Uniform(s, pos + 3, SETBACK, SITE_WIDTH - SETBACK - w), SITE_HEIGHT - SETBACK - h),
      Point(SETBACK + 5.0, SETBACK + 5.0),
      Point(SITE_WIDTH - SETBACK - w - 5.0, SETBACK + 5.0),
      Point(SETBACK + 5.0, SITE_HEIGHT - SETBACK - h - 5.0),
      Point(SITE_WIDTH - SETBACK - w - 5.0, SITE_HEIGHT - SETBACK - h - 5.0) ]
  }

  /**
   The A building of one boundary attempt that reads the draws at `p`, `p + 1`
   and `p + 2`: a random anchor of `zones`, shifted by up to 10 in each
   direction and clamped into the site.
   */
  function BoundaryCandidate(zones: seq<Point>, s: Stream, p: nat): (r: Rect)
    requires |zones| == 8
    ensures r.kind == A && WellTyped(r) && InsideSite(r)
  {
    var z := zones[Below(s, p, 8)];
    var candidate := Rect(z.x + Uniform(s, p + 1, -10.0, 10.0), z.y + Uniform(s, p + 2, -10.0, 10.0), Width(A), Height(A), A);
    ClampedIsInside(candidate, candidate.x, candidate.y);
    candidate.(x := Clamp(candidate.x, SETBACK, SITE_WIDTH - SETBACK - Width(A)),
               y := Clamp(candidate.y, SETBACK, SITE_HEIGHT - SETBACK - Height(A)))
  }

  /** The candidate of the `k`-th attempt of a boundary tier that starts at `pos`. */
  function BoundaryAttempt(s: Stream, pos: nat, k: nat): Rect
  {
    BoundaryCandidate(BoundaryZones(s, pos), s, pos + 4 + 3 * k)
  }

  /** Every one of the `attempts / 2` candidates of a boundary tier that starts at `pos` fails the placement checks. */
  predicate BoundaryAttemptsFail(layout: Layout, attempts: int, s: Stream, pos: nat)
  {
    forall k: nat :: k < Iterations(attempts / 2) ==> !Placeable(BoundaryAttempt(s, pos, k), layout)
  }

  /**
   A boundary tier that starts at `pos` places `r`: after the four anchor
   draws, the candidate of some attempt `k` within the budget, which passes
   the placement checks after every earlier candidate failed them, with
   `pos'` the cursor after it.
   */
  ghost predicate BoundaryPlacedAt(layout: Layout, attempts: int, s: Stream, pos: nat, r: Rect, pos': nat)
  {
    exists k: nat :: k < Iterations(attempts / 2) && pos' == pos + 4 + 3 * k + 3 && r == BoundaryAttempt(s, pos, k)
      && Placeable(r, layout) && forall j: nat :: j < k ==> !Placeable(BoundaryAttempt(s, pos, j), layout)
  }

  /**
   The boundary tier: the anchors, then up to `attempts / 2` A buildings near
   a random anchor. It returns the first candidate that passes the placement
   checks, after every earlier candidate failed, or None when all of them
   failed.
   */
  method BoundaryTier(layout: Layout, attempts: int, s: Stream, pos: nat) returns (r: Option<Rect>, pos': nat)
    ensures pos + 4 <= pos' <= pos + 4 + 3 * Iterations(attempts / 2)
    ensures r.None? ==> pos' == pos + 4 + 3 * Iterations(attempts / 2) && BoundaryAttemptsFail(layout, attempts, s, pos)
    ensures r.Some? ==> pos + 7 <= pos' && r.value == BoundaryCandidate(BoundaryZones(s, pos), s, pos' - 3)
    ensures r.Some? ==>
      exists k: nat :: k < Iterations(attempts / 2) && pos' == pos + 4 + 3 * k + 3 && r.value == BoundaryAttempt(s, pos, k)
    ensures r.Some? ==> r.value.kind == A && WellTyped(r.value) && Placeable(r.value, layout)
    ensures forall k: nat :: pos + 4 + 3 * k < pos' - (if r.Some? then 3 else 0) ==>
      !Placeable(BoundaryAttempt(s, pos, k), layout)
    ensures r.Some? ==> BoundaryPlacedAt(layout, attempts, s, pos, r.value, pos')
  {
    var zones := BoundaryZones(s, pos);
    var n := Iterations(attempts / 2);
    pos' := pos + 4;
    var a := 0;
    while a < n
      invariant 0 <= a <= n && pos' == pos + 4 + 3 * a
      invariant forall k: nat :: k < a ==> !Placeable(BoundaryAttempt(s, pos, k), layout)
    {
      var rect := BoundaryCandidate(zones, s, pos');
      assert rect == BoundaryAttempt(s, pos, a);
      pos' := pos' + 3;
      if InsideSite(rect) && !IntersectsPlaza(rect) && SpacingOk(rect, layout, MIN_SPACING) {
        return Some(rect), pos';
      }
      a := a + 1;
    }
    return None, pos';
  }

  /** The coverage tier runs: some A building lacks a close B, and there are fewer B than A buildings. */
  predicate CoverageApplies(layout: Layout)
  {
    NeedsB(layout) && CountKind(layout, B) < CountKind(layout, A)
  }

  /** The boundary tier runs when it is reached: A exceeds B by at most 4. */
  predicate BoundaryApplies(layout: Layout)
  {
    CountKind(layout, A) <= CountKind(layout, B) + 4
  }

  /** The cursor at which the boundary tier starts: after a coverage tier that ran and placed nothing. */
  function BoundaryStart(layout: Layout, attempts: int, pos: nat): (p: nat)
    ensures pos <= p
  {
    if CoverageApplies(layout) then pos + 3 * Iterations(attempts) else pos
  }

  /** The cursor at which the random-type fallback starts: after the earlier tiers placed nothing. */
  function FallbackStart(layout: Layout, attempts: int, pos: nat): (p: nat)
    ensures BoundaryStart(layout, attempts, pos) <= p
  {
    var b := BoundaryStart(layout, attempts, pos);
    if BoundaryApplies(layout) then b + 4 + 3 * Iterations(attempts / 2) else b
  }

  /**
   What the three tiers yield from the cursor `pos`: `r` is the building,
   `pos'` the cursor after it and `tier` the tier that placed it. A placed
   building is catalogue-typed and passes the placement checks. The coverage
   tier places a building only when it runs. A later tier is reached only
   after every attempt of each earlier tier that ran failed. The placing tier
   places its first candidate that passes, within its attempt budget, and
   `pos'` is the cursor after that attempt. None means that every tier that
   ran failed, the random-type fallback included.
   */
  ghost predicate TierOutcome(layout: Layout, attempts: int, s: Stream, pos: nat, polar: (real, real) -> (real, real),
                              r: Option<Rect>, pos': nat, tier: Tier)
  {
    var b := BoundaryStart(layout, attempts, pos);
    var fb := FallbackStart(layout, attempts, pos);
    && pos <= pos'
    && (r.Some? ==> WellTyped(r.value) && Placeable(r.value, layout))
    && (tier == Coverage ==>
          r.Some? && CoverageApplies(layout) && r.value.kind == B
          && CoveragePlacedAt(layout, attempts, s, pos, polar, r.value, pos'))
    && (tier != Coverage && CoverageApplies(layout) ==> CoverageAttemptsFail(layout, attempts, s, pos, polar))
    && (tier == Boundary ==>
          r.Some? && BoundaryApplies(layout) && r.value.kind == A
          && BoundaryPlacedAt(layout, attempts, s, b, r.value, pos'))
    && (tier == Fallback ==> EarlierTiersFail(layout, attempts, s, pos, polar) && FallbackOutcome(layout, attempts, s, fb, r, pos'))
    && (r.None? ==> tier == Fallback)
  }

  /** Every attempt of each of the first two tiers that ran failed. */
  ghost predicate EarlierTiersFail(layout: Layout, attempts: int, s: Stream, pos: nat, polar: (real, real) -> (real, real))
  {
    && (CoverageApplies(layout) ==> CoverageAttemptsFail(layout, attempts, s, pos, polar))
    && (BoundaryApplies(layout) ==> BoundaryAttemptsFail(layout, attempts, s, BoundaryStart(layout, attempts, pos)))
  }

  /**
   The random-type fallback from cursor `fb`: one type draw, then the first
   of its candidates that passes within the budget, or nothing once all of
   them failed.
   */
  ghost predicate FallbackOutcome(layout: Layout, attempts: int, s: Stream, fb: nat, r: Option<Rect>, pos': nat)
  {
    && (r.Some? ==> PlacedAt(ChooseKind(s, fb), layout, attempts, s, fb + 1, r.value, pos'))
    && (r.None? ==> pos' == fb + 1 + 2 * Iterations(attempts) && AttemptsFail(ChooseKind(s, fb), layout, attempts, s, fb + 1))
  }

  /**
   The first tier, when it runs: a B near an A that lacks one, only when some
   A lacks a close B and there are fewer B than A. When it places nothing,
   the cursor is where the boundary tier starts.
   */
  method CoverageStep(layout: Layout, attempts: int, s: Stream, pos: nat, polar: (real, real) -> (real, real))
    returns (rect: Option<Rect>, pos': nat)
    ensures rect.Some? ==>
      CoverageApplies(layout) && rect.value.kind == B && WellTyped(rect.value) && Placeable(rect.value, layout)
      && CoveragePlacedAt(layout, attempts, s, pos, polar, rect.value, pos')
    ensures rect.None? ==> pos' == BoundaryStart(layout, attempts, pos)
    ensures rect.None? && CoverageApplies(layout) ==> CoverageAttemptsFail(layout, attempts, s, pos, polar)
  {
    var countA := CountKind(layout, A);
    var countB := CountKind(layout, B);
    var needs := NeedsCoverage(layout);
    if needs && countB < countA {
      rect, pos' := CoverageTier(layout, attempts, s, pos, polar);
    } else {
      rect, pos' := None, pos;
    }
  }

  /**
   The second tier, when it runs: an A near the boundary, only while A
   exceeds B by at most 4. When it places nothing, the cursor is where the
   fallback starts.
   */
  method BoundaryStep(layout: Layout, attempts: int, s: Stream, pos: nat) returns (rect: Option<Rect>, pos': nat)
    ensures rect.Some? ==>
      BoundaryApplies(layout) && rect.value.kind == A && WellTyped(rect.value) && Placeable(rect.value, layout)
      && BoundaryPlacedAt(layout, attempts, s, pos, rect.value, pos')
    ensures rect.None? ==> pos' == if BoundaryApplies(layout) then pos + 4 + 3 * Iterations(attempts / 2) else pos
    ensures rect.None? && BoundaryApplies(layout) ==> BoundaryAttemptsFail(layout, attempts, s, pos)
  {
    if CountKind(layout, A) <= CountKind(layout, B) + 4 {
      rect, pos' := BoundaryTier(layout, attempts, s, pos);
    } else {
      rect, pos' := None, pos;
    }
  }

  /**
   The first two tiers in turn, the second one reached only when the first
   placed nothing. When they place nothing, the cursor is where the fallback
   starts.
   */
  method EarlyTiers(layout: Layout, attempts: int, s: Stream, pos: nat, polar: (real, real) -> (real, real))
    returns (rect: Option<Rect>, pos': nat, ghost tier: Tier)
    ensures rect.Some? ==> TierOutcome(layout, attempts, s, pos, polar, rect, pos', tier)
    ensures rect.None? ==> tier == Fallback && pos' == FallbackStart(layout, attempts, pos)
    ensures rect.None? ==> EarlierTiersFail(layout, attempts, s, pos, polar)
  {
    rect, pos' := CoverageStep(layout, attempts, s, pos, polar);
    tier := Coverage;
    if rect.None? {
      rect, pos' := BoundaryStep(layout, attempts, s, pos');
      tier := if rect.Some? then Boundary else Fallback;
    }
  }

  /** The three tiers in turn, each one reached only when the ones before it placed nothing. */
  method PlaceByTiers(layout: Layout, attempts: int, s: Stream, pos: nat, polar: (real, real) -> (real, real))
    returns (rect: Option<Rect>, pos': nat, ghost tier: Tier)
    ensures TierOutcome(layout, attempts, s, pos, polar, rect, pos', tier)
  {
    rect, pos', tier := EarlyTiers(layout, attempts, s, pos, polar);
    if rect.None? {
      ghost var fb := pos';
      var kind := ChooseKind(s, pos');
      rect, pos' := TryPlace(kind, layout, attempts, s, pos' + 1);
      assert FallbackOutcome(layout, attempts, s, fb, rect, pos');
    }
  }

  /**
   One more building, placed by the three tiers. A returned layout is the
   input with the tiers' building appended; None means that the tiers
   placed nothing.
   */
  method TryAddBuilding(layout: Layout, attempts: int, s: Stream, pos: nat, polar: (real, real) -> (real, real))
    returns (res: Option<Layout>, pos': nat, ghost tier: Tier, ghost placed: Option<Rect>)
    ensures TierOutcome(layout, attempts, s, pos, polar, placed, pos', tier)
    ensures res.Some? <==> placed.Some?
    ensures res.Some? ==> res.value == layout + [placed.value]
    ensures res.Some? ==> |res.value| == |layout| + 1 && res.value[..|layout|] == layout
    ensures res.Some? && AllWellTyped(layout) ==> AllWellTyped(res.value)
    ensures res.Some? && GeometricRules(layout) ==> GeometricRules(res.value)
  {
    var rect;
    rect, pos', tier := PlaceByTiers(layout, attempts, s, pos, polar);
    placed := rect;
    if rect.None? {
      return None, pos', tier, placed;
    }
    var grown := layout + [rect.value];
    assert grown[..|layout|] == layout;
    if GeometricRules(layout) {
      AppendPlaceablePreservesRules(layout, rect.value);
    }
    return Some(grown), pos', tier, placed;
  }

  // ----------------------------------------------------------------------
  // Selection and evolution

  /** Each layout with its score and its position. */
  function Entries(population: seq<Layout>): (es: seq<Entry<Layout>>)
    ensures |es| == |population|
    ensures forall i :: 0 <= i < |es| ==> es[i] == Entry(ScoreLayout(population[i]), i, population[i])
  {
    seq(|population|, i requires 0 <= i < |population| => Entry(ScoreLayout(population[i]), i, population[i]))
  }

  /**
   The scored population after the stable sort by descending score: each
   entry is the layout at its original position with that layout's score,
   no position occurs twice, and the entries are in rank order (higher
   score first, equal scores by original position).
   */
  function Ranked(population: seq<Layout>): (r: seq<Entry<Layout>>)
    ensures |r| == |population|
    ensures forall k :: 0 <= k < |r| ==>
      r[k].index < |population| && r[k] == Entry(ScoreLayout(population[r[k].index]), r[k].index, population[r[k].index])
    ensures DistinctIndices(r)
    ensures InRankOrder(r)
  {
    var es := Entries(population);
    var sorted := SortByScore(es);
    SortedEntriesComeFromPopulation(population, sorted);
    ReorderKeepsDistinct(es, sorted);
    sorted
  }

  /** Every entry of a reordering of the scored population is the entry of its own position. */
  lemma SortedEntriesComeFromPopulation(population: seq<Layout>, sorted: seq<Entry<Layout>>)
    requires multiset(sorted) == multiset(Entries(population))
    ensures forall k :: 0 <= k < |sorted| ==>
      sorted[k].index < |population| && sorted[k] == Entries(population)[sorted[k].index]
    ensures DistinctIndices(Entries(population))
  {
    var es := Entries(population);
    forall k | 0 <= k < |sorted| ensures sorted[k].index < |population| && sorted[k] == es[sorted[k].index] {
      assert sorted[k] in multiset(es);
      var m :| 0 <= m < |es| && es[m] == sorted[k];
    }
  }

  /**
   The original positions of the population in ranked order: a permutation of
   the positions, so every layout is placed exactly once.
   */
  function RankOrder(population: seq<Layout>): (idx: seq<nat>)
    ensures |idx| == |population|
    ensures forall k :: 0 <= k < |idx| ==> idx[k] < |population|
    ensures forall i, j :: 0 <= i < j < |idx| ==> idx[i] != idx[j]
  {
    var r := Ranked(population);
    seq(|r|, k requires 0 <= k < |r| => r[k].index)
  }

  /**
   The population sorted by descending score, equal scores in their original
   order: the layouts in the order `RankOrder` gives, a permutation of the
   population whose scores never increase, in which two layouts of equal
   score keep their relative order.
   */
  function ByScore(population: seq<Layout>): (r: seq<Layout>)
    ensures |r| == |population|
    ensures multiset(r) == multiset(population)
    ensures forall k :: 0 <= k < |r| ==> r[k] == population[RankOrder(population)[k]]
    ensures forall i, j :: 0 <= i < j < |r| ==> ScoreLayout(r[i]) >= ScoreLayout(r[j])
    ensures forall i, j :: 0 <= i < j < |r| && ScoreLayout(r[i]) == ScoreLayout(r[j]) ==>
      RankOrder(population)[i] < RankOrder(population)[j]
  {
    var ranked := Ranked(population);
    EntriesItems(population);
    SortKeepsItems(Entries(population));
    RankedIsStable(ranked);
    Items(ranked)
  }

  /** In rank order with distinct positions, scores never increase and equal scores have increasing positions. */
  lemma RankedIsStable(ranked: seq<Entry<Layout>>)
    requires InRankOrder(ranked) && DistinctIndices(ranked)
    ensures forall i, j :: 0 <= i < j < |ranked| ==>
      ranked[i].score >= ranked[j].score && (ranked[i].score == ranked[j].score ==> ranked[i].index < ranked[j].index)
  {
    forall i, j | 0 <= i < j < |ranked|
      ensures ranked[i].score >= ranked[j].score && (ranked[i].score == ranked[j].score ==> ranked[i].index < ranked[j].index)
    {
      assert RanksBefore(ranked[i], ranked[j]);
    }
  }

  lemma EntriesItems(population: seq<Layout>)
    ensures Items(Entries(population)) == population
  {
  }

  /** The layout ranked first has the highest score of the population. */
  lemma {:induction false} ByScoreLeadsWithBest(population: seq<Layout>)
    requires |population| > 0
    ensures forall j :: 0 <= j < |population| ==> ScoreLayout(population[j]) <= ScoreLayout(ByScore(population)[0])
  {
    var r := ByScore(population);
    forall j | 0 <= j < |population| ensures ScoreLayout(population[j]) <= ScoreLayout(r[0]) {
      assert population[j] in multiset(r);
      var k :| 0 <= k < |r| && r[k] == population[j];
      if 0 < k {
        assert ScoreLayout(r[0]) >= ScoreLayout(r[k]);
      }
    }
  }

  /**
   One generation of truncation selection: the better half of the
   population (by `ByScore`) survives unchanged, and the rest is refilled with
   mutated survivors, some of which get one building more. The best layout
   seen is replaced only by a strictly better one.
   */
  method NextGeneration(population: seq<Layout>, size: int, rate: real, best: Layout, bestScore: real,
                        s: Stream, pos: nat, polar: (real, real) -> (real, real))
    returns (next: seq<Layout>, best': Layout, bestScore': real, pos': nat)
    requires 2 <= size && |population| == size
    requires bestScore == ScoreLayout(best)
    ensures pos <= pos'
    ensures |next| == size
    ensures next[..size / 2] == ByScore(population)[..size / 2]
    ensures bestScore' == ScoreLayout(best') && bestScore <= bestScore'
    ensures best' == best || (bestScore < bestScore' && best' in population)
    ensures ScoreLayout(ByScore(population)[0]) > bestScore ==> best' == ByScore(population)[0]
    ensures ScoreLayout(ByScore(population)[0]) <= bestScore ==> best' == best
    ensures forall j :: 0 <= j < |population| ==> ScoreLayout(population[j]) <= bestScore'
    ensures forall i :: size / 2 <= i < size ==> OffspringOf(ByScore(population)[..size / 2], next[i], rate)
  {
    var ranked := ByScore(population);
    ByScoreLeadsWithBest(population);
    if ScoreLayout(ranked[0]) > bestScore {
      best', bestScore' := ranked[0], ScoreLayout(ranked[0]);
      assert ranked[0] in multiset(population);
    } else {
      best', bestScore' := best, bestScore;
    }
    next, pos' := Refill(ranked[..size / 2], size, rate, s, pos, polar);
  }

  /**
   `child` is an offspring of `parent`: a mutation of it, or a mutation of it
   followed by one catalogue-typed building that passes the placement checks
   against the mutation.
   */
  predicate ChildOf(parent: Layout, child: Layout, rate: real)
  {
    MutationOf(parent, child, rate)
    || (|child| == |parent| + 1 && MutationOf(parent, child[..|parent|], rate)
        && WellTyped(child[|parent|]) && Placeable(child[|parent|], child[..|parent|]))
  }

  /** `child` is an offspring of one of the survivors. */
  predicate OffspringOf(survivors: seq<Layout>, child: Layout, rate: real)
  {
    exists k :: 0 <= k < |survivors| && ChildOf(survivors[k], child, rate)
  }

  /** The survivors followed by offspring of theirs, up to `size` layouts. */
  method Refill(survivors: seq<Layout>, size: int, rate: real, s: Stream, pos: nat,
                polar: (real, real) -> (real, real))
    returns (next: seq<Layout>, pos': nat)
    requires 0 < |survivors| <= size
    ensures pos <= pos'
    ensures |next| == size && next[..|survivors|] == survivors
    ensures forall i :: |survivors| <= i < size ==> OffspringOf(survivors, next[i], rate)
  {
    next := survivors;
    pos' := pos;
    while |next| < size
      invariant pos <= pos'
      invariant |survivors| <= |next| <= size
      invariant next[..|survivors|] == survivors
      invariant forall i :: |survivors| <= i < |next| ==> OffspringOf(survivors, next[i], rate)
    {
      var child;
      child, pos' := Offspring(survivors, rate, s, pos', polar);
      assert (next + [child])[..|survivors|] == next[..|survivors|];
      next := next + [child];
    }
  }

  /**
   One child: a mutated copy of the survivor the first draw picks which,
   three times out of ten, is offered one more building.
   */
  method Offspring(survivors: seq<Layout>, rate: real, s: Stream, pos: nat, polar: (real, real) -> (real, real))
    returns (child: Layout, pos': nat)
    requires |survivors| > 0
    ensures pos < pos'
    ensures Below(s, pos, |survivors|) < |survivors| && ChildOf(survivors[Below(s, pos, |survivors|)], child, rate)
    ensures OffspringOf(survivors, child, rate)
  {
    var k := Below(s, pos, |survivors|);
    var parent := survivors[k];
    child, pos' := MutateLayout(parent, rate, s, pos + 1);
    var u := s(pos');
    pos' := pos' + 1;
    if u < 0.3 {
      var improved;
      ghost var tier, placed;
      improved, pos', tier, placed := TryAddBuilding(child, 50, s, pos', polar);
      if improved.Some? {
        child := improved.value;
      }
    }
  }

  /**
   `next` is a generation that can follow `population`: the better half of
   `population` by `ByScore`, in that order, then offspring of that half up
   to `size` layouts.
   */
  predicate Successor(population: seq<Layout>, next: seq<Layout>, size: int, rate: real)
  {
    && 0 <= size / 2 <= |population|
    && |next| == size
    && next[..size / 2] == ByScore(population)[..size / 2]
    && forall i :: size / 2 <= i < size ==> OffspringOf(ByScore(population)[..size / 2], next[i], rate)
  }

  /** No layout of any of the populations scores above `best`. */
  predicate Dominated(history: seq<seq<Layout>>, best: Layout)
  {
    forall g, j :: 0 <= g < |history| && 0 <= j < |history[g]| ==> NoWorse(history[g][j], best)
  }

  /** `layout` is a member of one of the populations. */
  predicate Seen(history: seq<seq<Layout>>, layout: Layout)
  {
    exists g :: 0 <= g < |history| && layout in history[g]
  }

  /**
   The state of an evolution of `initial` after `|history|` generations:
   `history` holds the populations scored so far and `population` the one to
   score next. The first population is the copies of the initial layout,
   each later one follows the one before it, `best` scores at least as well
   as every scored layout and as the initial layout, and it is the initial
   layout or a strictly better layout from a scored population.
   */
  predicate EvolutionState(initial: Layout, size: int, rate: real, history: seq<seq<Layout>>,
                           population: seq<Layout>, best: Layout)
  {
    && |population| == Iterations(size)
    && (|history| == 0 ==> population == seq(Iterations(size), _ => initial))
    && (|history| > 0 ==>
          history[0] == seq(Iterations(size), _ => initial)
          && Successor(history[|history| - 1], population, size, rate))
    && (forall g :: 0 < g < |history| ==> Successor(history[g - 1], history[g], size, rate))
    && Dominated(history, best)
    && NoWorse(initial, best)
    && (best == initial || (Improves(initial, best) && Seen(history, best)))
  }

  /** One generation of an evolution: the population is scored and replaced by the next one. */
  method Advance(initial: Layout, size: int, rate: real, ghost history: seq<seq<Layout>>,
                 population: seq<Layout>, best: Layout, bestScore: real,
                 s: Stream, pos: nat, polar: (real, real) -> (real, real))
    returns (ghost history': seq<seq<Layout>>, next: seq<Layout>, best': Layout, bestScore': real, pos': nat)
    requires 2 <= size
    requires EvolutionState(initial, size, rate, history, population, best) && bestScore == ScoreLayout(best)
    ensures pos <= pos'
    ensures history' == history + [population]
    ensures EvolutionState(initial, size, rate, history', next, best') && bestScore' == ScoreLayout(best')
  {
    next, best', bestScore', pos' := NextGeneration(population, size, rate, best, bestScore, s, pos, polar);
    HistoryStep(history, population, best, best');
    BestStep(initial, history, population, best, best');
    SuccessorsStep(history, population, size, rate);
    history' := history + [population];
    assert history'[0] == if |history| == 0 then population else history[0];
  }

  /**
   Evolution of one layout: a population of copies, `generations` rounds of
   selection, and the best layout seen. `history` holds the populations
   that were scored, one per generation: the first is the copies of the
   initial layout and each later one follows the one before it. The result
   scores at least as well as every layout of every one of them and as the
   initial layout, and it is the initial layout or a strictly better layout
   from one of them; with catalogue footprints it is then valid.
   */
  method EvolveLayout(initial: Layout, generations: int, size: int, rate: real,
                      s: Stream, pos: nat, polar: (real, real) -> (real, real))
    returns (best: Layout, pos': nat, ghost history: seq<seq<Layout>>)
    requires generations <= 0 || 2 <= size
    ensures pos <= pos'
    ensures EvolvedWith(initial, generations, size, rate, history, best)
    ensures AllWellTyped(initial) ==> best == initial || LayoutValid(best, NEIGHBOR_RADIUS).all
  {
    ghost var population;
    var bestScore;
    history, population, best, bestScore, pos' := RunGenerations(initial, generations, size, rate, s, pos, polar);
    FinishedRun(initial, generations, size, rate, history, population, best);
  }

  /**
   The generation loop of `evolve_layout`: one scored population per
   generation, keeping the evolution state.
   */
  method RunGenerations(initial: Layout, generations: int, size: int, rate: real,
                        s: Stream, pos: nat, polar: (real, real) -> (real, real))
    returns (ghost history: seq<seq<Layout>>, population: seq<Layout>, best: Layout, bestScore: real, pos': nat)
    requires generations <= 0 || 2 <= size
    ensures pos <= pos'
    ensures |history| == Iterations(generations)
    ensures EvolutionState(initial, size, rate, history, population, best) && bestScore == ScoreLayout(best)
  {
    population := seq(Iterations(size), _ => initial);
    best := initial;
    bestScore := ScoreLayout(initial);
    pos' := pos;
    history := [];
    var gen := 0;
    while gen < generations
      invariant pos <= pos'
      invariant |history| == gen && gen <= Iterations(generations)
      invariant EvolutionState(initial, size, rate, history, population, best) && bestScore == ScoreLayout(best)
    {
      history, population, best, bestScore, pos' := Advance(initial, size, rate, history, population, best, bestScore, s, pos', polar);
      gen := gen + 1;
    }
  }

  /**
   At the end of the generation loop the scored populations and the best
   layout are a run as `EvolvedWith` describes, and with catalogue
   footprints a changed best layout is valid.
   */
  lemma FinishedRun(initial: Layout, generations: int, size: int, rate: real,
                    history: seq<seq<Layout>>, population: seq<Layout>, best: Layout)
    requires |history| == Iterations(generations)
    requires EvolutionState(initial, size, rate, history, population, best)
    ensures EvolvedWith(initial, generations, size, rate, history, best)
    ensures AllWellTyped(initial) ==> best == initial || LayoutValid(best, NEIGHBOR_RADIUS).all
  {
    if AllWellTyped(initial) && best != initial {
      ScoreSeparatesValidity(initial);
    }
  }

  /**
   After one more scored population, the new best still dominates every
   population, and it is the old best or a member of the new population.
   */
  lemma HistoryStep(history: seq<seq<Layout>>, population: seq<Layout>, best: Layout, best': Layout)
    requires Dominated(history, best) && ScoreLayout(best) <= ScoreLayout(best')
    requires forall j :: 0 <= j < |population| ==> ScoreLayout(population[j]) <= ScoreLayout(best')
    ensures Dominated(history + [population], best')
    ensures Seen(history, best) ==> Seen(history + [population], best)
    ensures best' in population ==> Seen(history + [population], best')
  {
    var h := history + [population];
    forall g, j | 0 <= g < |h| && 0 <= j < |h[g]| ensures NoWorse(h[g][j], best') {
      if g < |history| {
        assert h[g] == history[g];
        assert NoWorse(history[g][j], best);
      }
    }
    if Seen(history, best) {
      var g :| 0 <= g < |history| && best in history[g];
      assert h[g] == history[g];
    }
    if best' in population {
      assert h[|history|] == population;
    }
  }

  /**
   The best layout stays the initial layout or a strictly better scored
   layout when it is replaced only by a strictly better member of the
   newly scored population.
   */
  lemma BestStep(initial: Layout, history: seq<seq<Layout>>, population: seq<Layout>, best: Layout, best': Layout)
    requires NoWorse(initial, best) && (best == initial || (Improves(initial, best) && Seen(history, best)))
    requires best' == best || (Improves(best, best') && best' in population)
    requires Seen(history, best) ==> Seen(history + [population], best)
    requires best' in population ==> Seen(history + [population], best')
    ensures NoWorse(initial, best')
    ensures best' == initial || (Improves(initial, best') && Seen(history + [population], best'))
  {
  }

  /** Appending the population that follows the last one keeps every population following the one before it. */
  lemma SuccessorsStep(history: seq<seq<Layout>>, population: seq<Layout>, size: int, rate: real)
    requires forall g :: 0 < g < |history| ==> Successor(history[g - 1], history[g], size, rate)
    requires |history| > 0 ==> Successor(history[|history| - 1], population, size, rate)
    ensures forall g :: 0 < g < |history| + 1 ==> Successor((history + [population])[g - 1], (history + [population])[g], size, rate)
  {
    var h := history + [population];
    forall g | 0 < g < |h| ensures Successor(h[g - 1], h[g], size, rate) {
      assert h[g - 1] == history[g - 1];
      if g < |history| {
        assert h[g] == history[g];
      }
    }
  }

  /** Python's `xs[:n]`: the first `n` items, or all but the last `-n` when `n` is negative. */
  function Prefix<T>(xs: seq<T>, n: int): (p: seq<T>)
    ensures |p| <= |xs| && forall i :: 0 <= i < |p| ==> p[i] == xs[i]
    ensures 0 <= n ==> |p| == if n < |xs| then n else |xs|
    ensures n < 0 ==> |p| == if |xs| + n < 0 then 0 else |xs| + n
  {
    if 0 <= n then (if n < |xs| then xs[..n] else xs)
    else (if |xs| + n < 0 then [] else xs[..|xs| + n])
  }

  /**
   The search: evolve each of the first `count` layouts of the pool, keep the
   valid results (`evolved`, in pool order), and return the first `count` of
   them by descending score. When every seed is valid and catalogue-typed,
   every evolved layout is kept and scores at least as well as its seed.
   */
  method EvolutionarySearch(count: int, pool: seq<Layout>, generations: int, size: int, rate: real,
                            s: Stream, pos: nat, polar: (real, real) -> (real, real))
    returns (result: seq<Layout>, pos': nat, ghost evolved: seq<Layout>, ghost runs: seq<Layout>,
             ghost histories: seq<seq<seq<Layout>>>)
    requires generations <= 0 || 2 <= size || |Prefix(pool, count)| == 0
    ensures pos <= pos'
    ensures |runs| == |Prefix(pool, count)| && |histories| == |runs|
    ensures forall k :: 0 <= k < |runs| ==>
      EvolvedWith(Prefix(pool, count)[k], generations, size, rate, histories[k], runs[k])
    ensures evolved == ValidOnes(runs)
    ensures result == Prefix(ByScore(evolved), count)
    ensures AllValid(evolved) && |evolved| <= |Prefix(pool, count)|
    ensures forall i :: 0 <= i < |result| ==> LayoutValid(result[i], NEIGHBOR_RADIUS).all
    ensures forall i, j :: 0 <= i < j < |result| ==> ScoreLayout(result[i]) >= ScoreLayout(result[j])
    ensures |result| <= |Prefix(pool, count)|
    ensures 0 <= count ==> |result| <= count
    ensures ValidSeeds(Prefix(pool, count)) ==>
      |evolved| == |Prefix(pool, count)| && forall k :: 0 <= k < |evolved| ==> NoWorse(Prefix(pool, count)[k], evolved[k])
    ensures 0 <= count && ValidSeeds(Prefix(pool, count)) ==> |result| == |Prefix(pool, count)|
  {
    var kept;
    kept, pos', runs, histories := EvolveSeeds(Prefix(pool, count), generations, size, rate, s, pos, polar);
    evolved := kept;
    result := Prefix(ByScore(kept), count);
    BestPrefixValid(kept, count);
    BestPrefixDescending(kept, count);
  }

  /**
   The loop of the search: each seed evolved in turn, and the result kept
   when it is valid. With valid catalogue-typed seeds every result is kept,
   in seed order, and scores at least as well as its seed.
   */
  method EvolveSeeds(seeds: seq<Layout>, generations: int, size: int, rate: real,
                     s: Stream, pos: nat, polar: (real, real) -> (real, real))
    returns (kept: seq<Layout>, pos': nat, ghost runs: seq<Layout>, ghost histories: seq<seq<seq<Layout>>>)
    requires generations <= 0 || 2 <= size || |seeds| == 0
    ensures pos <= pos'
    ensures |runs| == |seeds| && |histories| == |seeds|
    ensures forall k :: 0 <= k < |seeds| ==> EvolvedWith(seeds[k], generations, size, rate, histories[k], runs[k])
    ensures kept == ValidOnes(runs)
    ensures AllValid(kept) && |kept| <= |seeds|
    ensures ValidSeeds(seeds) ==> |kept| == |seeds| && forall k :: 0 <= k < |kept| ==> NoWorse(seeds[k], kept[k])
  {
    kept, pos', runs, histories := [], pos, [], [];
    for i := 0 to |seeds|
      invariant pos <= pos'
      invariant |runs| == i && EvolvedRuns(seeds, generations, size, rate, histories, runs)
      invariant kept == ValidOnes(runs)
      invariant ValidSeeds(seeds) ==> |kept| == i && forall k :: 0 <= k < |kept| ==> NoWorse(seeds[k], kept[k])
    {
      kept, pos', runs, histories := EvolveNext(seeds, generations, size, rate, s, pos', polar, i, kept, runs, histories);
    }
    forall k | 0 <= k < |seeds| ensures EvolvedWith(seeds[k], generations, size, rate, histories[k], runs[k]) {
      EvolvedRunsAt(seeds, generations, size, rate, histories, runs, k);
    }
  }

  /**
   One round of the search's loop: the next seed evolved, and the result
   kept when it is valid. With valid catalogue-typed seeds it is always kept
   and scores at least as well as its seed.
   */
  method EvolveNext(seeds: seq<Layout>, generations: int, size: int, rate: real,
                    s: Stream, pos: nat, polar: (real, real) -> (real, real),
                    i: nat, kept: seq<Layout>, ghost runs: seq<Layout>, ghost histories: seq<seq<seq<Layout>>>)
    returns (kept': seq<Layout>, pos': nat, ghost runs': seq<Layout>, ghost histories': seq<seq<seq<Layout>>>)
    requires generations <= 0 || 2 <= size
    requires i == |runs| < |seeds| && EvolvedRuns(seeds, generations, size, rate, histories, runs)
    requires kept == ValidOnes(runs)
    requires ValidSeeds(seeds) ==> |kept| == |runs| && forall k :: 0 <= k < |kept| ==> NoWorse(seeds[k], kept[k])
    ensures pos <= pos'
    ensures |runs'| == |runs| + 1
    ensures EvolvedRuns(seeds, generations, size, rate, histories', runs')
    ensures kept' == ValidOnes(runs')
    ensures ValidSeeds(seeds) ==> |kept'| == |runs'| && forall k :: 0 <= k < |kept'| ==> NoWorse(seeds[k], kept'[k])
  {
    var improved;
    ghost var history;
    improved, pos', history := EvolveLayout(seeds[i], generations, size, rate, s, pos, polar);
    EvolvedRunsSnoc(seeds, generations, size, rate, histories, runs, history, improved);
    KeptStep(seeds, kept, runs, improved);
    runs', histories' := runs + [improved], histories + [history];
    kept' := kept + if LayoutValid(improved, NEIGHBOR_RADIUS).all then [improved] else [];
  }

  /**
   The kept list follows the runs when the next run is appended: the run is
   kept exactly when it is valid, and with valid catalogue-typed seeds it is
   always kept.
   */
  lemma KeptStep(seeds: seq<Layout>, kept: seq<Layout>, runs: seq<Layout>, improved: Layout)
    requires |runs| < |seeds| && kept == ValidOnes(runs)
    requires ValidSeeds(seeds) ==> |kept| == |runs| && forall k :: 0 <= k < |kept| ==> NoWorse(seeds[k], kept[k])
    requires NoWorse(seeds[|runs|], improved)
    ensures kept + (if LayoutValid(improved, NEIGHBOR_RADIUS).all then [improved] else []) == ValidOnes(runs + [improved])
    ensures ValidSeeds(seeds) ==> LayoutValid(improved, NEIGHBOR_RADIUS).all
    ensures ValidSeeds(seeds) ==> forall k :: 0 <= k < |kept| + 1 ==> NoWorse(seeds[k], (kept + [improved])[k])
  {
    ValidOnesSnoc(runs, improved);
    if ValidSeeds(seeds) {
      NoWorseThanValidIsValid(seeds[|runs|], improved);
      SnocNoWorse(seeds, kept, improved);
    }
  }

  /**
   `best` is a result of evolving `initial` with `history` as its scored
   populations: `generations` of them, the first the copies of `initial` and
   each later one following the one before it; `best` scores at least as
   well as every scored layout and as `initial`, and is `initial` or a
   strictly better scored layout.
   */
  ghost predicate EvolvedWith(initial: Layout, generations: int, size: int, rate: real,
                              history: seq<seq<Layout>>, best: Layout)
  {
    && |history| == Iterations(generations)
    && (|history| > 0 ==> history[0] == seq(Iterations(size), _ => initial))
    && (forall g :: 0 < g < |history| ==> Successor(history[g - 1], history[g], size, rate))
    && Dominated(history, best)
    && NoWorse(initial, best)
    && (best == initial || (Improves(initial, best) && Seen(history, best)))
  }

  /** `b` scores strictly better than `a`. */
  predicate Improves(a: Layout, b: Layout)
  {
    ScoreLayout(a) < ScoreLayout(b)
  }

  /** Each of `runs` is a result of evolving the seed at the same position, with the history of the same position. */
  ghost predicate EvolvedRuns(seeds: seq<Layout>, generations: int, size: int, rate: real,
                              histories: seq<seq<seq<Layout>>>, runs: seq<Layout>)
    decreases |runs|
  {
    && |runs| <= |seeds| && |histories| == |runs|
    && (runs != [] ==>
          var n := |runs| - 1;
          EvolvedRuns(seeds, generations, size, rate, histories[..n], runs[..n])
          && EvolvedWith(seeds[n], generations, size, rate, histories[n], runs[n]))
  }

  /** The result of evolving the next seed extends the runs. */
  lemma EvolvedRunsSnoc(seeds: seq<Layout>, generations: int, size: int, rate: real,
                        histories: seq<seq<seq<Layout>>>, runs: seq<Layout>, history: seq<seq<Layout>>, best: Layout)
    requires EvolvedRuns(seeds, generations, size, rate, histories, runs) && |runs| < |seeds|
    requires EvolvedWith(seeds[|runs|], generations, size, rate, history, best)
    ensures EvolvedRuns(seeds, generations, size, rate, histories + [history], runs + [best])
  {
    var rs, hs := runs + [best], histories + [history];
    assert rs[..|runs|] == runs && hs[..|runs|] == histories;
    assert rs[|runs|] == best && hs[|runs|] == history;
  }

  /** Every position of the runs holds a result of evolving the seed there. */
  lemma {:induction false} EvolvedRunsAt(seeds: seq<Layout>, generations: int, size: int, rate: real,
                                         histories: seq<seq<seq<Layout>>>, runs: seq<Layout>, k: int)
    requires EvolvedRuns(seeds, generations, size, rate, histories, runs) && 0 <= k < |runs|
    ensures EvolvedWith(seeds[k], generations, size, rate, histories[k], runs[k])
    decreases |runs|
  {
    var n := |runs| - 1;
    if k < n {
      EvolvedRunsAt(seeds, generations, size, rate, histories[..n], runs[..n], k);
      assert histories[..n][k] == histories[k] && runs[..n][k] == runs[k];
    }
  }

  /** The layouts of the list that pass every rule, in list order: the ones the search keeps. */
  function ValidOnes(layouts: seq<Layout>): (v: seq<Layout>)
    ensures |v| <= |layouts| && AllValid(v)
  {
    if layouts == [] then []
    else
      var last := layouts[|layouts| - 1];
      ValidOnes(layouts[..|layouts| - 1]) + (if LayoutValid(last, NEIGHBOR_RADIUS).all then [last] else [])
  }

  /** One more layout is added to the kept ones exactly when it passes every rule. */
  lemma ValidOnesSnoc(layouts: seq<Layout>, layout: Layout)
    ensures ValidOnes(layouts + [layout])
      == ValidOnes(layouts) + if LayoutValid(layout, NEIGHBOR_RADIUS).all then [layout] else []
  {
    assert (layouts + [layout])[..|layouts|] == layouts;
  }

  /** Appending a layout no worse than the next seed keeps the kept layouts aligned with the seeds. */
  lemma SnocNoWorse(seeds: seq<Layout>, kept: seq<Layout>, improved: Layout)
    requires |kept| < |seeds|
    requires forall k :: 0 <= k < |kept| ==> NoWorse(seeds[k], kept[k])
    requires NoWorse(seeds[|kept|], improved)
    ensures forall k :: 0 <= k < |kept| + 1 ==> NoWorse(seeds[k], (kept + [improved])[k])
  {
    forall k | 0 <= k < |kept| + 1 ensures NoWorse(seeds[k], (kept + [improved])[k]) {
      if k < |kept| {
        assert (kept + [improved])[k] == kept[k];
      }
    }
  }

  /** `b` scores at least as well as `a`. */
  predicate NoWorse(a: Layout, b: Layout)
  {
    ScoreLayout(a) <= ScoreLayout(b)
  }

  /** A layout that scores no worse than a valid catalogue-typed layout is valid. */
  lemma NoWorseThanValidIsValid(seed: Layout, improved: Layout)
    requires AllWellTyped(seed) && LayoutValid(seed, NEIGHBOR_RADIUS).all
    requires ScoreLayout(seed) <= ScoreLayout(improved)
    ensures LayoutValid(improved, NEIGHBOR_RADIUS).all && NoWorse(seed, improved)
  {
    ScoreSeparatesValidity(seed);
  }

  /** Every seed is catalogue-typed and passes every rule. */
  predicate ValidSeeds(seeds: seq<Layout>)
  {
    forall k :: 0 <= k < |seeds| ==> AllWellTyped(seeds[k]) && LayoutValid(seeds[k], NEIGHBOR_RADIUS).all
  }

  /** Every layout of the list passes every rule. */
  predicate AllValid(layouts: seq<Layout>)
  {
    forall k :: 0 <= k < |layouts| ==> LayoutValid(layouts[k], NEIGHBOR_RADIUS).all
  }

  /** The first `count` layouts by score of a list of valid layouts are valid. */
  lemma BestPrefixValid(layouts: seq<Layout>, count: int)
    requires AllValid(layouts)
    ensures forall i :: 0 <= i < |Prefix(ByScore(layouts), count)| ==>
      LayoutValid(Prefix(ByScore(layouts), count)[i], NEIGHBOR_RADIUS).all
  {
    var ranked := ByScore(layouts);
    var p := Prefix(ranked, count);
    forall i | 0 <= i < |p| ensures LayoutValid(p[i], NEIGHBOR_RADIUS).all {
      assert ranked[i] in multiset(layouts);
    }
  }

  /** The first `count` layouts by score are in descending score. */
  lemma BestPrefixDescending(layouts: seq<Layout>, count: int)
    ensures var p := Prefix(ByScore(layouts), count);
      forall i, j :: 0 <= i < j < |p| ==> ScoreLayout(p[i]) >= ScoreLayout(p[j])
  {
    var ranked := ByScore(layouts);
    var p := Prefix(ranked, count);
    forall i, j | 0 <= i < j < |p| ensures ScoreLayout(p[i]) >= ScoreLayout(p[j]) {
      assert p[i] == ranked[i] && p[j] == ranked[j];
    }
  }

}
