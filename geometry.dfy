/**
 The geometry and validity engine: containment within the setback, overlap
 with the plaza, edge-to-edge clearance between buildings, the rule that
 every A building has a B building nearby, the four-flag validity report and
 the index-level violation report.

 Euclidean distances are never formed: a comparison `hypot(dx, dy) >= d` is
 written as a comparison of `dx^2 + dy^2` with `d^2`, which is equivalent
 because a distance is never negative.
 */
module Geometry {

  import opened Config
  import opened RealArith

  /** One placed building: origin, footprint and type tag. */
  datatype Rect = Rect(x: real, y: real, w: real, h: real, kind: Kind)

  datatype Point = Point(x: real, y: real)

  /** A layout is ordered by insertion; the order only fixes indices. */
  type Layout = seq<Rect>

  /** Type and footprint agree with the catalogue. */
  predicate WellTyped(r: Rect)
  {
    r.w == Width(r.kind) && r.h == Height(r.kind)
  }

  predicate AllWellTyped(layout: Layout)
  {
    forall i :: 0 <= i < |layout| ==> WellTyped(layout[i])
  }

  /** The footprint is not inverted. */
  predicate NonNegative(r: Rect)
  {
    0.0 <= r.w && 0.0 <= r.h
  }

  /** The closed region of the rectangle contains the point. */
  predicate Covers(r: Rect, p: Point)
  {
    r.x <= p.x <= r.x + r.w && r.y <= p.y <= r.y + r.h
  }

  function SqDist(p: Point, q: Point): real
  {
    Square(p.x - q.x) + Square(p.y - q.y)
  }

  function Max(a: real, b: real): real
  {
    if a < b then b else a
  }

  function Min(a: real, b: real): real
  {
    if a < b then a else b
  }

  // ----------------------------------------------------------------------
  // Centers, containment, plaza overlap

  /** The center of the rectangle: halfway between opposite edges. */
  function Center(r: Rect): (c: Point)
    ensures c.x - r.x == (r.x + r.w) - c.x && c.y - r.y == (r.y + r.h) - c.y
    ensures NonNegative(r) ==> Covers(r, c)
  {
    Point(r.x + r.w * 0.5, r.y + r.h * 0.5)
  }

  /** The site minus its setback margin, where every building must lie. */
  predicate Buildable(p: Point)
  {
    SETBACK <= p.x <= SITE_WIDTH - SETBACK && SETBACK <= p.y <= SITE_HEIGHT - SETBACK
  }

  /**
   The rectangle lies within the setback lines; touching them is allowed.
   Only a footprint that fits between the setback lines can be inside.
   */
  predicate InsideSite(r: Rect)
    ensures InsideSite(r) ==> r.w <= SITE_WIDTH - 2.0 * SETBACK && r.h <= SITE_HEIGHT - 2.0 * SETBACK
  {
    r.x >= SETBACK
    && r.y >= SETBACK
    && r.x + r.w <= SITE_WIDTH - SETBACK
    && r.y + r.h <= SITE_HEIGHT - SETBACK
  }

  /** For a non-inverted rectangle, being inside the site means that every point of it is buildable. */
  lemma {:induction false} InsideSiteIffAllPointsBuildable(r: Rect)
    requires NonNegative(r)
    ensures InsideSite(r) <==> forall p :: Covers(r, p) ==> Buildable(p)
  {
    if forall p :: Covers(r, p) ==> Buildable(p) {
      assert Covers(r, Point(r.x, r.y));
      assert Covers(r, Point(r.x + r.w, r.y + r.h));
    }
  }

  /** A rectangle flush with both setback lines of a corner is inside the site. */
  lemma FlushWithSetbackIsInside(r: Rect)
    requires r.x == SETBACK && r.y == SETBACK
    requires 0.0 <= r.w <= SITE_WIDTH - 2.0 * SETBACK && 0.0 <= r.h <= SITE_HEIGHT - 2.0 * SETBACK
    ensures InsideSite(r)
  {
  }

  /** A point strictly inside the plaza. */
  predicate InPlazaInterior(p: Point)
  {
    PLAZA_X < p.x < PLAZA_X + PLAZA_W && PLAZA_Y < p.y < PLAZA_Y + PLAZA_H
  }

  /** A point strictly inside the rectangle. */
  predicate InInterior(r: Rect, p: Point)
  {
    r.x < p.x < r.x + r.w && r.y < p.y < r.y + r.h
  }

  /**
   Strict overlap with the plaza: sharing only an edge does not count. A
   non-inverted rectangle whose center is strictly inside the plaza overlaps it.
   */
  predicate IntersectsPlaza(r: Rect)
    ensures NonNegative(r) && InPlazaInterior(Center(r)) ==> IntersectsPlaza(r)
  {
    !(r.x + r.w <= PLAZA_X
      || PLAZA_X + PLAZA_W <= r.x
      || r.y + r.h <= PLAZA_Y
      || PLAZA_Y + PLAZA_H <= r.y)
  }

  /** A rectangle that only touches the plaza's boundary does not intersect it. */
  lemma TouchingPlazaIsNotIntersecting(r: Rect)
    requires r.x + r.w == PLAZA_X || r.x == PLAZA_X + PLAZA_W || r.y + r.h == PLAZA_Y || r.y == PLAZA_Y + PLAZA_H
    ensures !IntersectsPlaza(r)
  {
  }

  /**
   For a rectangle of positive area, intersecting the plaza means exactly that
   the two share an interior point.
   */
  lemma {:induction false} IntersectsPlazaIffSharedInterior(r: Rect)
    requires 0.0 < r.w && 0.0 < r.h
    ensures IntersectsPlaza(r) <==> exists p :: InInterior(r, p) && InPlazaInterior(p)
  {
    if IntersectsPlaza(r) {
      var lx := Max(r.x, PLAZA_X);
      var hx := Min(r.x + r.w, PLAZA_X + PLAZA_W);
      var ly := Max(r.y, PLAZA_Y);
      var hy := Min(r.y + r.h, PLAZA_Y + PLAZA_H);
      var p := Point((lx + hx) / 2.0, (ly + hy) / 2.0);
      assert InInterior(r, p) && InPlazaInterior(p);
    }
  }

  // ----------------------------------------------------------------------
  // Edge-to-edge distance and spacing

  /** The horizontal gap between the rectangles, 0 when their x-extents meet. */
  function GapX(r1: Rect, r2: Rect): (g: real)
    ensures 0.0 <= g
  {
    Max(0.0, Max(r2.x - (r1.x + r1.w), r1.x - (r2.x + r2.w)))
  }

  /** The vertical gap between the rectangles, 0 when their y-extents meet. */
  function GapY(r1: Rect, r2: Rect): (g: real)
    ensures 0.0 <= g
  {
    Max(0.0, Max(r2.y - (r1.y + r1.h), r1.y - (r2.y + r2.h)))
  }

  /** The square of the distance between the nearest edges. */
  function EdgeDistanceSq(r1: Rect, r2: Rect): (d: real)
    ensures 0.0 <= d
  {
    SquareSign(GapX(r1, r2));
    SquareSign(GapY(r1, r2));
    Square(GapX(r1, r2)) + Square(GapY(r1, r2))
  }

  lemma EdgeDistanceSymmetric(r1: Rect, r2: Rect)
    ensures EdgeDistanceSq(r1, r2) == EdgeDistanceSq(r2, r1)
  {
    assert GapX(r1, r2) == GapX(r2, r1);
    assert GapY(r1, r2) == GapY(r2, r1);
  }

  /** The closed rectangles overlap or touch. */
  predicate Touching(r1: Rect, r2: Rect)
  {
    r1.x <= r2.x + r2.w && r2.x <= r1.x + r1.w && r1.y <= r2.y + r2.h && r2.y <= r1.y + r1.h
  }

  /** The edge distance is zero exactly when the rectangles overlap or touch. */
  lemma {:induction false} EdgeDistanceZeroIffTouching(r1: Rect, r2: Rect)
    ensures EdgeDistanceSq(r1, r2) == 0.0 <==> Touching(r1, r2)
  {
    SumOfSquaresZero(GapX(r1, r2), GapY(r1, r2));
  }

  /** A non-inverted rectangle is at distance zero from itself. */
  lemma {:induction false} EdgeDistanceToSelf(r: Rect)
    requires NonNegative(r)
    ensures EdgeDistanceSq(r, r) == 0.0
  {
    EdgeDistanceZeroIffTouching(r, r);
  }

  lemma {:induction false} SquareOfNegation(a: real)
    ensures Square(-a) == Square(a)
  {
    assert Square(-a) == (-a) * (-a);
    assert (-a) * (-a) == a * a;
  }

  /** Along one axis, any two points of the extents are at least the gap apart. */
  lemma {:induction false} AxisGapBound(g: real, p: real, q: real, lo1: real, hi1: real, lo2: real, hi2: real)
    requires lo1 <= p <= hi1 && lo2 <= q <= hi2
    requires g == Max(0.0, Max(lo2 - hi1, lo1 - hi2))
    ensures Square(g) <= Square(p - q)
  {
    if g == 0.0 {
      SquareSign(p - q);
      assert Square(g) == 0.0 * 0.0;
    } else if g == lo2 - hi1 {
      SquareMonotone(g, q - p);
      SquareOfNegation(q - p);
      assert -(q - p) == p - q;
    } else {
      SquareMonotone(g, p - q);
    }
  }

  /** No point of one rectangle is nearer to a point of the other than the edge distance. */
  lemma {:induction false} EdgeDistanceIsLowerBound(r1: Rect, r2: Rect, p: Point, q: Point)
    requires Covers(r1, p) && Covers(r2, q)
    ensures EdgeDistanceSq(r1, r2) <= SqDist(p, q)
  {
    AxisGapBound(GapX(r1, r2), p.x, q.x, r1.x, r1.x + r1.w, r2.x, r2.x + r2.w);
    AxisGapBound(GapY(r1, r2), p.y, q.y, r1.y, r1.y + r1.h, r2.y, r2.y + r2.h);
  }

  /** Along one axis, a pair of points of the two extents that realises the gap. */
  function NearestOnAxis(lo1: real, hi1: real, lo2: real, hi2: real): (pq: (real, real))
    requires lo1 <= hi1 && lo2 <= hi2
    ensures lo1 <= pq.0 <= hi1 && lo2 <= pq.1 <= hi2
    ensures Square(pq.0 - pq.1) == Square(Max(0.0, Max(lo2 - hi1, lo1 - hi2)))
  {
    if hi1 < lo2 then
      SquareOfNegation(lo2 - hi1);
      assert -(lo2 - hi1) == hi1 - lo2;
      (hi1, lo2)
    else if hi2 < lo1 then
      (lo1, hi2)
    else
      var t := Max(lo1, lo2);
      assert Square(t - t) == 0.0 * 0.0;
      assert Square(0.0) == 0.0 * 0.0;
      (t, t)
  }

  /** For non-inverted rectangles the edge distance is attained by a pair of points. */
  lemma {:induction false} EdgeDistanceIsAttained(r1: Rect, r2: Rect)
    requires NonNegative(r1) && NonNegative(r2)
    ensures exists p, q :: Covers(r1, p) && Covers(r2, q) && SqDist(p, q) == EdgeDistanceSq(r1, r2)
  {
    var xs := NearestOnAxis(r1.x, r1.x + r1.w, r2.x, r2.x + r2.w);
    var ys := NearestOnAxis(r1.y, r1.y + r1.h, r2.y, r2.y + r2.h);
    var p, q := Point(xs.0, ys.0), Point(xs.1, ys.1);
    assert Covers(r1, p) && Covers(r2, q) && SqDist(p, q) == EdgeDistanceSq(r1, r2);
  }

  /**
   `edge_distance(r1, r2) >= ms`, stated without the square root. For a
   positive threshold, rectangles far enough apart do not touch.
   */
  predicate FarEnough(r1: Rect, r2: Rect, ms: real)
    ensures 0.0 < ms && FarEnough(r1, r2, ms) ==> 0.0 < EdgeDistanceSq(r1, r2)
  {
    SquareSign(ms);
    ms <= 0.0 || Square(ms) <= EdgeDistanceSq(r1, r2)
  }

  lemma {:induction false} FarEnoughSymmetric(r1: Rect, r2: Rect, ms: real)
    ensures FarEnough(r1, r2, ms) == FarEnough(r2, r1, ms)
  {
    EdgeDistanceSymmetric(r1, r2);
  }

  /**
   The spacing test is shape-aware: for non-inverted rectangles and a positive
   threshold it holds exactly when every point of one rectangle is at least
   `ms` away from every point of the other.
   */
  lemma {:induction false} FarEnoughIffClearance(r1: Rect, r2: Rect, ms: real)
    requires NonNegative(r1) && NonNegative(r2) && 0.0 < ms
    ensures FarEnough(r1, r2, ms) <==>
      forall p, q :: Covers(r1, p) && Covers(r2, q) ==> Square(ms) <= SqDist(p, q)
  {
    if FarEnough(r1, r2, ms) {
      forall p, q | Covers(r1, p) && Covers(r2, q) ensures Square(ms) <= SqDist(p, q) {
        EdgeDistanceIsLowerBound(r1, r2, p, q);
      }
    } else {
      EdgeDistanceIsAttained(r1, r2);
    }
  }

  /** Rectangles separated by `ms` along one axis are far enough apart. */
  lemma {:induction false} SeparatedOnAnAxis(r1: Rect, r2: Rect, ms: real)
    requires ms <= GapX(r1, r2) || ms <= GapY(r1, r2)
    ensures FarEnough(r1, r2, ms)
  {
    if 0.0 < ms {
      var gx, gy := GapX(r1, r2), GapY(r1, r2);
      SquareSign(gx);
      SquareSign(gy);
      if ms <= gx {
        SquareMonotone(ms, gx);
      } else {
        SquareMonotone(ms, gy);
      }
    }
  }

  /**
   `rect` keeps at least `ms` from every building of `others`. For a positive
   threshold, a non-inverted `rect` is then not itself one of `others`.
   */
  predicate SpacingOk(rect: Rect, others: Layout, ms: real)
    ensures SpacingOk(rect, others, ms) && 0.0 < ms && NonNegative(rect) ==> rect !in others
  {
    if NonNegative(rect) then
      EdgeDistanceToSelf(rect);
      forall i :: 0 <= i < |others| ==> FarEnough(rect, others[i], ms)
    else
      forall i :: 0 <= i < |others| ==> FarEnough(rect, others[i], ms)
  }

  /** Spacing against a growing list is checked one new building at a time. */
  lemma {:induction false} SpacingOkAppend(rect: Rect, others: Layout, o: Rect, ms: real)
    ensures SpacingOk(rect, [], ms)
    ensures SpacingOk(rect, others + [o], ms) <==> SpacingOk(rect, others, ms) && FarEnough(rect, o, ms)
  {
    var s := others + [o];
    assert s[|others|] == o;
    assert forall i :: 0 <= i < |others| ==> s[i] == others[i];
  }

  // ----------------------------------------------------------------------
  // The neighbour-mix rule

  /**
   `hypot` of the centers is within `radius`, stated without the square root.
   Each offset of the centers on its own is then within the radius.
   */
  predicate Near(a: Rect, b: Rect, radius: real)
    ensures Near(a, b, radius) ==>
      0.0 <= radius && Square(Center(a).x - Center(b).x) <= Square(radius) && Square(Center(a).y - Center(b).y) <= Square(radius)
  {
    var ca, cb := Center(a), Center(b);
    SquareSign(ca.x - cb.x);
    SquareSign(ca.y - cb.y);
    0.0 <= radius && SqDist(ca, cb) <= Square(radius)
  }

  predicate HasB(layout: Layout)
  {
    exists b :: b in layout && b.kind == B
  }

  /** Some B building of the layout has its center within `radius` of the center of `a`. */
  predicate CloseB(layout: Layout, a: Rect, radius: real)
  {
    exists b :: b in layout && b.kind == B && Near(a, b, radius)
  }

  /** At least one B exists, and every A has a B within `radius`; so the B count is positive. */
  predicate NeighborMix(layout: Layout, radius: real)
    ensures NeighborMix(layout, radius) ==> CountKind(layout, B) > 0
  {
    CountPositiveIffPresent(layout, B);
    HasB(layout) && forall a :: a in layout && a.kind == A ==> CloseB(layout, a, radius)
  }

  /** The buildings of one type, in layout order. */
  function OfKind(layout: Layout, k: Kind): (rs: Layout)
    ensures |rs| <= |layout|
    ensures forall r :: r in rs <==> r in layout && r.kind == k
    ensures (forall r :: r in layout ==> r.kind == k) ==> rs == layout
  {
    if layout == [] then []
    else
      var rest := OfKind(layout[1..], k);
      assert forall r :: r in layout <==> r == layout[0] || r in layout[1..];
      if layout[0].kind == k then [layout[0]] + rest else rest
  }

  /** How many buildings of the layout have the given type: all of them when every building has it. */
  function CountKind(layout: Layout, k: Kind): (n: nat)
    ensures n <= |layout|
    ensures (forall r :: r in layout ==> r.kind == k) ==> n == |layout|
  {
    |OfKind(layout, k)|
  }

  /** Every building is of type A or B, so the two counts add up to the length. */
  lemma {:induction false} CountsAddUp(layout: Layout)
    ensures CountKind(layout, A) + CountKind(layout, B) == |layout|
  {
    if layout != [] {
      CountsAddUp(layout[1..]);
    }
  }

  /** The number of A buildings exceeds zero exactly when an A is present. */
  lemma {:induction false} CountPositiveIffPresent(layout: Layout, k: Kind)
    ensures CountKind(layout, k) > 0 <==> exists r :: r in layout && r.kind == k
  {
    var rs := OfKind(layout, k);
    if |rs| > 0 {
      assert rs[0] in rs;
    }
  }

  /** The neighbour-mix check: it fails at the first A without a close B. */
  method NeighborMixOk(layout: Layout, radius: real) returns (ok: bool)
    ensures ok <==> NeighborMix(layout, radius)
  {
    var bs := OfKind(layout, B);
    if |bs| == 0 {
      assert !HasB(layout);
      return false;
    }
    assert bs[0] in bs;
    for i := 0 to |layout|
      invariant forall k :: 0 <= k < i && layout[k].kind == A ==> CloseB(layout, layout[k], radius)
    {
      var rect := layout[i];
      if rect.kind == A {
        var j := 0;
        while j < |bs| && !Near(rect, bs[j], radius)
          invariant 0 <= j <= |bs|
          invariant forall k :: 0 <= k < j ==> !Near(rect, bs[k], radius)
        {
          j := j + 1;
        }
        var closeB := j < |bs|;
        if !closeB {
          assert !CloseB(layout, rect, radius);
          return false;
        }
        assert bs[j] in bs;
      }
    }
    ok := true;
  }

  // ----------------------------------------------------------------------
  // The validity report

  datatype Validity = Validity(boundary: bool, plaza: bool, spacing: bool, neighborMix: bool, all: bool)

  predicate AllInside(layout: Layout)
  {
    forall i :: 0 <= i < |layout| ==> InsideSite(layout[i])
  }

  predicate NoneInPlaza(layout: Layout)
  {
    forall i :: 0 <= i < |layout| ==> !IntersectsPlaza(layout[i])
  }

  /** Each unordered pair i < j is checked once. */
  predicate PairwiseSpaced(layout: Layout)
  {
    forall i, j :: 0 <= i < j < |layout| ==> FarEnough(layout[i], layout[j], MIN_SPACING)
  }

  /** The four independent rule flags and their conjunction. */
  function LayoutValid(layout: Layout, radius: real): (v: Validity)
    ensures v.all <==> v.boundary && v.plaza && v.spacing && v.neighborMix
    ensures v.all ==> |layout| > 0
  {
    var boundary := AllInside(layout);
    var plaza := NoneInPlaza(layout);
    var spacing := PairwiseSpaced(layout);
    var mix := NeighborMix(layout, radius);
    Validity(boundary, plaza, spacing, mix, boundary && plaza && spacing && mix)
  }

  /** Checking each unordered pair once is the same as checking every ordered pair of distinct buildings. */
  lemma {:induction false} SpacingFlagCoversAllPairs(layout: Layout, radius: real)
    ensures LayoutValid(layout, radius).spacing <==>
      forall i, j :: 0 <= i < |layout| && 0 <= j < |layout| && i != j ==> FarEnough(layout[i], layout[j], MIN_SPACING)
  {
    if PairwiseSpaced(layout) {
      forall i, j | 0 <= i < |layout| && 0 <= j < |layout| && i != j
        ensures FarEnough(layout[i], layout[j], MIN_SPACING)
      {
        if j < i {
          FarEnoughSymmetric(layout[j], layout[i], MIN_SPACING);
        }
      }
    }
  }

  /** The three placement checks applied to every new building. */
  predicate Placeable(r: Rect, current: Layout)
  {
    InsideSite(r) && !IntersectsPlaza(r) && SpacingOk(r, current, MIN_SPACING)
  }

  /** The three geometric rules (all of the report except neighbour mix). */
  predicate GeometricRules(layout: Layout)
  {
    AllInside(layout) && NoneInPlaza(layout) && PairwiseSpaced(layout)
  }

  /**
   Appending a building that passed the placement checks against the layout
   preserves the boundary, plaza and spacing flags; spacing needs the
   symmetry of the edge distance.
   */
  lemma {:induction false} AppendPlaceablePreservesRules(layout: Layout, r: Rect)
    requires GeometricRules(layout) && Placeable(r, layout)
    ensures GeometricRules(layout + [r])
  {
    var s := layout + [r];
    assert forall i :: 0 <= i < |layout| ==> s[i] == layout[i];
    forall i, j | 0 <= i < j < |s| ensures FarEnough(s[i], s[j], MIN_SPACING) {
      if j == |layout| {
        FarEnoughSymmetric(r, layout[i], MIN_SPACING);
      }
    }
  }

  // ----------------------------------------------------------------------
  // The violation report

  /** A pair of indices that fails spacing, with its squared edge distance. */
  datatype SpacingFailure = SpacingFailure(i: int, j: int, distSq: real)

  datatype Violations = Violations(
    boundaryFail: set<int>,
    plazaFail: set<int>,
    spacingFailPairs: seq<SpacingFailure>,
    neighborFail: set<int>,
    affected: set<int>)

  /** An entry that correctly reports a spacing failure of the layout. */
  predicate IsSpacingFailure(layout: Layout, f: SpacingFailure)
  {
    0 <= f.i < f.j < |layout|
    && f.distSq == EdgeDistanceSq(layout[f.i], layout[f.j])
    && !FarEnough(layout[f.i], layout[f.j], MIN_SPACING)
  }

  /** Lexicographic order on index pairs: the order of the nested loop. */
  predicate PairBefore(f: SpacingFailure, g: SpacingFailure)
  {
    f.i < g.i || (f.i == g.i && f.j < g.j)
  }

  /** The indices named by some reported pair. */
  function PairIndices(pairs: seq<SpacingFailure>): (s: set<int>)
    ensures forall i :: i in s <==> exists k :: 0 <= k < |pairs| && (pairs[k].i == i || pairs[k].j == i)
  {
    (set k | 0 <= k < |pairs| :: pairs[k].i) + (set k | 0 <= k < |pairs| :: pairs[k].j)
  }

  /** The nested loop of the diagnosis: every failing pair i < j, in loop order. */
  method SpacingFailures(layout: Layout) returns (pairs: seq<SpacingFailure>)
    ensures forall k :: 0 <= k < |pairs| ==> IsSpacingFailure(layout, pairs[k])
    ensures forall i, j :: 0 <= i < j < |layout| && !FarEnough(layout[i], layout[j], MIN_SPACING) ==>
      SpacingFailure(i, j, EdgeDistanceSq(layout[i], layout[j])) in pairs
    ensures forall k, l :: 0 <= k < l < |pairs| ==> PairBefore(pairs[k], pairs[l])
  {
    var n := |layout|;
    pairs := [];
    for i := 0 to n
      invariant forall k :: 0 <= k < |pairs| ==> IsSpacingFailure(layout, pairs[k]) && pairs[k].i < i
      invariant forall a, b :: 0 <= a < i && a < b < n && !FarEnough(layout[a], layout[b], MIN_SPACING) ==>
        SpacingFailure(a, b, EdgeDistanceSq(layout[a], layout[b])) in pairs
      invariant forall k, l :: 0 <= k < l < |pairs| ==> PairBefore(pairs[k], pairs[l])
    {
      var row := RowFailures(layout, i);
      assert forall k :: 0 <= k < |pairs + row| ==>
        (pairs + row)[k] == if k < |pairs| then pairs[k] else row[k - |pairs|];
      pairs := pairs + row;
    }
  }

  /** The inner loop of the diagnosis: the failing pairs (i, j) with i < j, in increasing j. */
  method RowFailures(layout: Layout, i: nat) returns (row: seq<SpacingFailure>)
    requires i < |layout|
    ensures forall k :: 0 <= k < |row| ==> IsSpacingFailure(layout, row[k]) && row[k].i == i
    ensures forall b :: i < b < |layout| && !FarEnough(layout[i], layout[b], MIN_SPACING) ==>
      SpacingFailure(i, b, EdgeDistanceSq(layout[i], layout[b])) in row
    ensures forall k, l :: 0 <= k < l < |row| ==> row[k].j < row[l].j
  {
    row := [];
    for j := i + 1 to |layout|
      invariant forall k :: 0 <= k < |row| ==> IsSpacingFailure(layout, row[k]) && row[k].i == i && row[k].j < j
      invariant forall b :: i < b < j && !FarEnough(layout[i], layout[b], MIN_SPACING) ==>
        SpacingFailure(i, b, EdgeDistanceSq(layout[i], layout[b])) in row
      invariant forall k, l :: 0 <= k < l < |row| ==> row[k].j < row[l].j
    {
      var dist := EdgeDistanceSq(layout[i], layout[j]);
      if !FarEnough(layout[i], layout[j], MIN_SPACING) {
        row := row + [SpacingFailure(i, j, dist)];
      }
    }
  }

  /** The neighbour loop of the diagnosis: the A buildings without a close B. */
  method NeighborFailures(layout: Layout, radius: real) returns (fail: set<int>)
    ensures forall i :: i in fail <==> 0 <= i < |layout| && layout[i].kind == A && !CloseB(layout, layout[i], radius)
  {
    fail := {};
    for idx := 0 to |layout|
      invariant forall i :: i in fail <==> 0 <= i < idx && layout[i].kind == A && !CloseB(layout, layout[i], radius)
    {
      if layout[idx].kind == A && !CloseB(layout, layout[idx], radius) {
        fail := fail + {idx};
      }
    }
  }

  /** The index-level diagnosis; it recomputes every rule rather than reusing the report. */
  method FindViolations(layout: Layout, radius: real) returns (v: Violations)
    ensures forall i :: i in v.boundaryFail <==> 0 <= i < |layout| && !InsideSite(layout[i])
    ensures forall i :: i in v.plazaFail <==> 0 <= i < |layout| && IntersectsPlaza(layout[i])
    ensures forall k :: 0 <= k < |v.spacingFailPairs| ==> IsSpacingFailure(layout, v.spacingFailPairs[k])
    ensures forall i, j :: 0 <= i < j < |layout| && !FarEnough(layout[i], layout[j], MIN_SPACING) ==>
      SpacingFailure(i, j, EdgeDistanceSq(layout[i], layout[j])) in v.spacingFailPairs
    ensures forall k, l :: 0 <= k < l < |v.spacingFailPairs| ==> PairBefore(v.spacingFailPairs[k], v.spacingFailPairs[l])
    ensures forall i :: i in v.neighborFail <==>
      0 <= i < |layout| && layout[i].kind == A && !CloseB(layout, layout[i], radius)
    ensures forall i :: i in v.affected <==>
      i in v.boundaryFail || i in v.plazaFail || i in v.neighborFail || i in PairIndices(v.spacingFailPairs)
    // agreement with the validity report
    ensures v.boundaryFail == {} <==> LayoutValid(layout, radius).boundary
    ensures v.plazaFail == {} <==> LayoutValid(layout, radius).plaza
    ensures v.spacingFailPairs == [] <==> LayoutValid(layout, radius).spacing
    ensures HasB(layout) ==> (v.neighborFail == {} <==> LayoutValid(layout, radius).neighborMix)
    ensures HasB(layout) ==> (v.affected == {} <==> LayoutValid(layout, radius).all)
    ensures !HasB(layout) ==> forall i :: 0 <= i < |layout| && layout[i].kind == A ==> i in v.neighborFail
    // the empty layout has nothing to report, yet fails the neighbour-mix rule
    ensures layout == [] ==> v.affected == {} && !LayoutValid(layout, radius).neighborMix
  {
    var n := |layout|;
    var boundaryFail := set i | 0 <= i < n && !InsideSite(layout[i]);
    var plazaFail := set i | 0 <= i < n && IntersectsPlaza(layout[i]);
    var pairs := SpacingFailures(layout);
    var neighborFail := NeighborFailures(layout, radius);
    var affected := boundaryFail + plazaFail + neighborFail + PairIndices(pairs);
    v := Violations(boundaryFail, plazaFail, pairs, neighborFail, affected);
    IndexSetsAgree(layout, radius, boundaryFail, plazaFail);
    SpacingFailuresAgree(layout, radius, pairs);
    NeighborFailuresAgree(layout, radius, neighborFail);
    if pairs != [] {
      assert pairs[0].i in PairIndices(pairs);
    }
  }

  /** The boundary and plaza sets are empty exactly when the corresponding flags hold. */
  lemma {:induction false} IndexSetsAgree(layout: Layout, radius: real, boundaryFail: set<int>, plazaFail: set<int>)
    requires forall i :: i in boundaryFail <==> 0 <= i < |layout| && !InsideSite(layout[i])
    requires forall i :: i in plazaFail <==> 0 <= i < |layout| && IntersectsPlaza(layout[i])
    ensures boundaryFail == {} <==> LayoutValid(layout, radius).boundary
    ensures plazaFail == {} <==> LayoutValid(layout, radius).plaza
  {
    if !AllInside(layout) {
      var i :| 0 <= i < |layout| && !InsideSite(layout[i]);
      assert i in boundaryFail;
    }
    if !NoneInPlaza(layout) {
      var i :| 0 <= i < |layout| && IntersectsPlaza(layout[i]);
      assert i in plazaFail;
    }
    if AllInside(layout) {
      assert forall i :: i !in boundaryFail;
    }
    if NoneInPlaza(layout) {
      assert forall i :: i !in plazaFail;
    }
  }

  /** The list of failing pairs is empty exactly when the spacing flag holds. */
  lemma {:induction false} SpacingFailuresAgree(layout: Layout, radius: real, pairs: seq<SpacingFailure>)
    requires forall k :: 0 <= k < |pairs| ==> IsSpacingFailure(layout, pairs[k])
    requires forall i, j :: 0 <= i < j < |layout| && !FarEnough(layout[i], layout[j], MIN_SPACING) ==>
      SpacingFailure(i, j, EdgeDistanceSq(layout[i], layout[j])) in pairs
    ensures pairs == [] <==> LayoutValid(layout, radius).spacing
  {
    if !PairwiseSpaced(layout) {
      var a, b :| 0 <= a < b < |layout| && !FarEnough(layout[a], layout[b], MIN_SPACING);
      assert SpacingFailure(a, b, EdgeDistanceSq(layout[a], layout[b])) in pairs;
    }
    if pairs != [] {
      assert IsSpacingFailure(layout, pairs[0]);
    }
  }

  /**
   With at least one B, the neighbour set is empty exactly when the rule holds;
   with none, every A is reported; the empty layout reports nothing although
   the rule fails for it.
   */
  lemma {:induction false} NeighborFailuresAgree(layout: Layout, radius: real, fail: set<int>)
    requires forall i :: i in fail <==> 0 <= i < |layout| && layout[i].kind == A && !CloseB(layout, layout[i], radius)
    ensures HasB(layout) ==> (fail == {} <==> LayoutValid(layout, radius).neighborMix)
    ensures !HasB(layout) ==> forall i :: 0 <= i < |layout| && layout[i].kind == A ==> i in fail
    ensures layout == [] ==> fail == {} && !LayoutValid(layout, radius).neighborMix
  {
    if HasB(layout) && !NeighborMix(layout, radius) {
      var a :| a in layout && a.kind == A && !CloseB(layout, a, radius);
      var i :| 0 <= i < |layout| && layout[i] == a;
      assert i in fail;
    }
    if NeighborMix(layout, radius) || layout == [] {
      forall i | 0 <= i < |layout| && layout[i].kind == A ensures i !in fail {
        assert layout[i] in layout;
      }
      assert forall i :: i !in fail;
    }
  }
}
