/**
 The hand-built layouts of the repository's test script, with the rule
 flags, counts, area and score that the model assigns to each.
 */
module Fixtures {

  import opened Config
  import opened RealArith
  import opened Geometry
  import opened Generator
  import opened Evolution

  /** Two A each with a B nearby, clear of the plaza and each other. */
  function BasicLayout(): Layout
  {
    [Rect(20.0, 20.0, 30.0, 20.0, A), Rect(70.0, 20.0, 20.0, 20.0, B),
     Rect(140.0, 20.0, 30.0, 20.0, A), Rect(140.0, 60.0, 20.0, 20.0, B)]
  }

  /** The basic layout with its first B moved to 5 from the first A. */
  function SpacingLayout(): Layout
  {
    [Rect(20.0, 20.0, 30.0, 20.0, A), Rect(55.0, 20.0, 20.0, 20.0, B),
     Rect(140.0, 20.0, 30.0, 20.0, A), Rect(140.0, 60.0, 20.0, 20.0, B)]
  }

  /** An A inside the plaza. */
  function PlazaLayout(): Layout
  {
    [Rect(20.0, 20.0, 30.0, 20.0, A), Rect(70.0, 20.0, 20.0, 20.0, B),
     Rect(90.0, 55.0, 30.0, 20.0, A), Rect(140.0, 20.0, 20.0, 20.0, B)]
  }

  /** Every B is 80 or more from the first A. */
  function NeighborLayout(): Layout
  {
    [Rect(20.0, 20.0, 30.0, 20.0, A), Rect(20.0, 100.0, 20.0, 20.0, B),
     Rect(150.0, 20.0, 30.0, 20.0, A), Rect(150.0, 100.0, 20.0, 20.0, B)]
  }

  /** An A across the left setback line. */
  function BoundaryLayout(): Layout
  {
    [Rect(5.0, 20.0, 30.0, 20.0, A), Rect(50.0, 20.0, 20.0, 20.0, B),
     Rect(140.0, 20.0, 30.0, 20.0, A), Rect(140.0, 60.0, 20.0, 20.0, B)]
  }

  /** Several rules broken at once. */
  function MultipleLayout(): Layout
  {
    [Rect(5.0, 20.0, 30.0, 20.0, A), Rect(40.0, 20.0, 20.0, 20.0, B),
     Rect(95.0, 60.0, 30.0, 20.0, A), Rect(170.0, 100.0, 20.0, 20.0, B)]
  }

  /** Eight buildings packed along the site edges. */
  function DenseLayout(): Layout
  {
    [Rect(15.0, 15.0, 30.0, 20.0, A), Rect(60.0, 15.0, 20.0, 20.0, B),
     Rect(15.0, 100.0, 30.0, 20.0, A), Rect(60.0, 100.0, 20.0, 20.0, B),
     Rect(130.0, 15.0, 30.0, 20.0, A), Rect(130.0, 50.0, 20.0, 20.0, B),
     Rect(165.0, 15.0, 20.0, 20.0, B), Rect(130.0, 100.0, 30.0, 20.0, A)]
  }

  /** Membership in a four-building layout. */
  lemma FourMembers(l: Layout)
    requires |l| == 4
    ensures forall r :: r in l <==> r == l[0] || r == l[1] || r == l[2] || r == l[3]
  {
  }

  /** The basic layout passes every rule. */
  lemma BasicLayoutIsValid()
    ensures LayoutValid(BasicLayout(), NEIGHBOR_RADIUS).all
  {
    var l := BasicLayout();
    assert AllInside(l) by {
      assert InsideSite(l[0]) && InsideSite(l[1]) && InsideSite(l[2]) && InsideSite(l[3]);
    }
    assert NoneInPlaza(l) by {
      assert !IntersectsPlaza(l[0]) && !IntersectsPlaza(l[1]) && !IntersectsPlaza(l[2]) && !IntersectsPlaza(l[3]);
    }
    BasicLayoutSpaced();
    BasicLayoutMixed();
  }

  lemma BasicLayoutSpaced()
    ensures PairwiseSpaced(BasicLayout())
  {
    var l := BasicLayout();
    SeparatedOnAnAxis(l[0], l[1], MIN_SPACING);
    SeparatedOnAnAxis(l[0], l[2], MIN_SPACING);
    SeparatedOnAnAxis(l[0], l[3], MIN_SPACING);
    SeparatedOnAnAxis(l[1], l[2], MIN_SPACING);
    SeparatedOnAnAxis(l[1], l[3], MIN_SPACING);
    SeparatedOnAnAxis(l[2], l[3], MIN_SPACING);
  }

  lemma BasicLayoutMixed()
    ensures NeighborMix(BasicLayout(), NEIGHBOR_RADIUS)
  {
    var l := BasicLayout();
    assert Near(l[0], l[1], NEIGHBOR_RADIUS) by {
      assert SqDist(Center(l[0]), Center(l[1])) == Square(-45.0) + Square(0.0) == 2025.0;
    }
    assert Near(l[2], l[3], NEIGHBOR_RADIUS) by {
      assert SqDist(Center(l[2]), Center(l[3])) == Square(5.0) + Square(-40.0) == 1625.0;
    }
    FourMembers(l);
  }

  /** Its summary: two buildings of each type and 2000 of area. */
  lemma BasicLayoutStats()
    ensures CountKind(BasicLayout(), A) == 2 && CountKind(BasicLayout(), B) == 2
    ensures TotalArea(BasicLayout()) == 2000.0
  {
  }

  /** Its score: 400 for the count, 200 for the area, half of the mean spread 80, no penalty. */
  lemma BasicLayoutScore()
    ensures ScoreLayout(BasicLayout()) == 640.0
  {
    BasicLayoutIsValid();
    BasicLayoutStats();
    BasicLayoutDistribution();
  }

  /** The centers spread 120 horizontally and 40 vertically. */
  lemma BasicLayoutDistribution()
    ensures Distribution(BasicLayout()) == 80.0
  {
    BasicLayoutSpreadX();
    BasicLayoutSpreadY();
  }

  lemma BasicLayoutSpreadX()
    ensures Spread(CenterXs(BasicLayout())) == 120.0
  {
    var xs := CenterXs(BasicLayout());
    assert xs[0] == 35.0 && xs[1] == 80.0 && xs[2] == 155.0 && xs[3] == 150.0;
    SpreadIsRange(xs, 2, 0);
  }

  lemma BasicLayoutSpreadY()
    ensures Spread(CenterYs(BasicLayout())) == 40.0
  {
    var ys := CenterYs(BasicLayout());
    assert ys[0] == 30.0 && ys[1] == 30.0 && ys[2] == 30.0 && ys[3] == 70.0;
    SpreadIsRange(ys, 3, 0);
  }

  /** Moving the first B to 5 from the first A breaks only the spacing rule. */
  lemma SpacingLayoutReport()
    ensures LayoutValid(SpacingLayout(), NEIGHBOR_RADIUS) == Validity(true, true, false, true, false)
    ensures ScoreLayout(SpacingLayout()) == INVALID_SCORE
  {
    var l := SpacingLayout();
    assert AllInside(l) by {
      assert InsideSite(l[0]) && InsideSite(l[1]) && InsideSite(l[2]) && InsideSite(l[3]);
    }
    assert NoneInPlaza(l) by {
      assert !IntersectsPlaza(l[0]) && !IntersectsPlaza(l[1]) && !IntersectsPlaza(l[2]) && !IntersectsPlaza(l[3]);
    }
    assert !FarEnough(l[0], l[1], MIN_SPACING) by {
      assert EdgeDistanceSq(l[0], l[1]) == Square(5.0) + Square(0.0) == 25.0;
    }
    SpacingLayoutMixed();
  }

  lemma SpacingLayoutMixed()
    ensures NeighborMix(SpacingLayout(), NEIGHBOR_RADIUS)
  {
    var l := SpacingLayout();
    assert Near(l[0], l[1], NEIGHBOR_RADIUS) by {
      assert SqDist(Center(l[0]), Center(l[1])) == Square(-30.0) + Square(0.0) == 900.0;
    }
    assert Near(l[2], l[3], NEIGHBOR_RADIUS) by {
      assert SqDist(Center(l[2]), Center(l[3])) == Square(5.0) + Square(-40.0) == 1625.0;
    }
    FourMembers(l);
  }

  /** A type A building over the plaza breaks only the plaza rule. */
  lemma PlazaLayoutReport()
    ensures LayoutValid(PlazaLayout(), NEIGHBOR_RADIUS) == Validity(true, false, true, true, false)
    ensures ScoreLayout(PlazaLayout()) == INVALID_SCORE
  {
    var l := PlazaLayout();
    assert AllInside(l) by {
      assert InsideSite(l[0]) && InsideSite(l[1]) && InsideSite(l[2]) && InsideSite(l[3]);
    }
    assert IntersectsPlaza(l[2]);
    PlazaLayoutSpaced();
    PlazaLayoutMixed();
  }

  /** Every pair is spaced, and the B at index 1 sits exactly 15 from the A over the plaza: the boundary case of the spacing rule. */
  lemma PlazaLayoutSpaced()
    ensures PairwiseSpaced(PlazaLayout())
    ensures EdgeDistanceSq(PlazaLayout()[1], PlazaLayout()[2]) == 225.0
  {
    var l := PlazaLayout();
    assert GapX(l[1], l[2]) == 0.0 && GapY(l[1], l[2]) == 15.0;
    SeparatedOnAnAxis(l[0], l[1], MIN_SPACING);
    SeparatedOnAnAxis(l[0], l[2], MIN_SPACING);
    SeparatedOnAnAxis(l[0], l[3], MIN_SPACING);
    SeparatedOnAnAxis(l[1], l[2], MIN_SPACING);
    SeparatedOnAnAxis(l[1], l[3], MIN_SPACING);
    SeparatedOnAnAxis(l[2], l[3], MIN_SPACING);
  }

  lemma PlazaLayoutMixed()
    ensures NeighborMix(PlazaLayout(), NEIGHBOR_RADIUS)
  {
    var l := PlazaLayout();
    assert Near(l[0], l[1], NEIGHBOR_RADIUS) by {
      assert SqDist(Center(l[0]), Center(l[1])) == Square(-45.0) + Square(0.0) == 2025.0;
    }
    assert Near(l[2], l[1], NEIGHBOR_RADIUS) by {
      assert SqDist(Center(l[2]), Center(l[1])) == Square(25.0) + Square(35.0) == 1850.0;
    }
    FourMembers(l);
  }

  /** With every B 80 or more from the first A only the neighbour-mix rule fails. */
  lemma NeighborLayoutReport()
    ensures LayoutValid(NeighborLayout(), NEIGHBOR_RADIUS) == Validity(true, true, true, false, false)
    ensures ScoreLayout(NeighborLayout()) == INVALID_SCORE
  {
    NeighborLayoutInside();
    NeighborLayoutSpaced();
    NeighborLayoutFirstALonely();
    assert NeighborLayout()[0].kind == A;
  }

  lemma NeighborLayoutInside()
    ensures AllInside(NeighborLayout()) && NoneInPlaza(NeighborLayout())
  {
    var l := NeighborLayout();
    assert InsideSite(l[0]) && InsideSite(l[1]) && InsideSite(l[2]) && InsideSite(l[3]);
    assert !IntersectsPlaza(l[0]) && !IntersectsPlaza(l[1]) && !IntersectsPlaza(l[2]) && !IntersectsPlaza(l[3]);
  }

  lemma NeighborLayoutSpaced()
    ensures PairwiseSpaced(NeighborLayout())
  {
    var l := NeighborLayout();
    SeparatedOnAnAxis(l[0], l[1], MIN_SPACING);
    SeparatedOnAnAxis(l[0], l[2], MIN_SPACING);
    SeparatedOnAnAxis(l[0], l[3], MIN_SPACING);
    SeparatedOnAnAxis(l[1], l[2], MIN_SPACING);
    SeparatedOnAnAxis(l[1], l[3], MIN_SPACING);
    SeparatedOnAnAxis(l[2], l[3], MIN_SPACING);
  }

  /** No B lies within the radius of the first A. */
  lemma NeighborLayoutFirstALonely()
    ensures !CloseB(NeighborLayout(), NeighborLayout()[0], NEIGHBOR_RADIUS)
  {
    var l := NeighborLayout();
    assert SqDist(Center(l[0]), Center(l[1])) == Square(5.0) + Square(-80.0) == 6425.0;
    assert SqDist(Center(l[0]), Center(l[3])) == Square(-125.0) + Square(-80.0) == 22025.0;
    FourMembers(l);
  }

  /** An A across the left setback line breaks only the boundary rule; the B beside it is exactly 15 away. */
  lemma BoundaryLayoutReport()
    ensures LayoutValid(BoundaryLayout(), NEIGHBOR_RADIUS) == Validity(false, true, true, true, false)
    ensures ScoreLayout(BoundaryLayout()) == INVALID_SCORE
  {
    var l := BoundaryLayout();
    assert !InsideSite(l[0]);
    assert NoneInPlaza(l) by {
      assert !IntersectsPlaza(l[0]) && !IntersectsPlaza(l[1]) && !IntersectsPlaza(l[2]) && !IntersectsPlaza(l[3]);
    }
    BoundaryLayoutSpaced();
    BoundaryLayoutMixed();
  }

  /** Every pair is spaced, and the first two buildings are exactly 15 apart. */
  lemma BoundaryLayoutSpaced()
    ensures PairwiseSpaced(BoundaryLayout())
    ensures EdgeDistanceSq(BoundaryLayout()[0], BoundaryLayout()[1]) == 225.0
  {
    var l := BoundaryLayout();
    assert GapX(l[0], l[1]) == 15.0 && GapY(l[0], l[1]) == 0.0;
    SeparatedOnAnAxis(l[0], l[1], MIN_SPACING);
    SeparatedOnAnAxis(l[0], l[2], MIN_SPACING);
    SeparatedOnAnAxis(l[0], l[3], MIN_SPACING);
    SeparatedOnAnAxis(l[1], l[2], MIN_SPACING);
    SeparatedOnAnAxis(l[1], l[3], MIN_SPACING);
    SeparatedOnAnAxis(l[2], l[3], MIN_SPACING);
  }

  lemma BoundaryLayoutMixed()
    ensures NeighborMix(BoundaryLayout(), NEIGHBOR_RADIUS)
  {
    var l := BoundaryLayout();
    assert Near(l[0], l[1], NEIGHBOR_RADIUS) by {
      assert SqDist(Center(l[0]), Center(l[1])) == Square(-40.0) + Square(0.0) == 1600.0;
    }
    assert Near(l[2], l[3], NEIGHBOR_RADIUS) by {
      assert SqDist(Center(l[2]), Center(l[3])) == Square(5.0) + Square(-40.0) == 1625.0;
    }
    FourMembers(l);
  }

  /** The layout built to break several rules breaks all four. */
  lemma MultipleLayoutReport()
    ensures LayoutValid(MultipleLayout(), NEIGHBOR_RADIUS) == Validity(false, false, false, false, false)
    ensures ScoreLayout(MultipleLayout()) == INVALID_SCORE
  {
    var l := MultipleLayout();
    assert !AllInside(l) by {
      assert !InsideSite(l[0]);
    }
    assert !NoneInPlaza(l) by {
      assert IntersectsPlaza(l[2]);
    }
    assert !PairwiseSpaced(l) by {
      assert !FarEnough(l[0], l[1], MIN_SPACING) by {
        assert EdgeDistanceSq(l[0], l[1]) == Square(5.0) + Square(0.0) == 25.0;
      }
    }
    assert !NeighborMix(l, NEIGHBOR_RADIUS) by {
      MultipleLayoutSecondALonely();
    }
  }

  /** No B lies within the radius of the A over the plaza. */
  lemma MultipleLayoutSecondALonely()
    ensures !CloseB(MultipleLayout(), MultipleLayout()[2], NEIGHBOR_RADIUS)
  {
    var l := MultipleLayout();
    assert SqDist(Center(l[2]), Center(l[1])) == Square(60.0) + Square(40.0) == 5200.0;
    assert SqDist(Center(l[2]), Center(l[3])) == Square(-70.0) + Square(-40.0) == 6500.0;
    FourMembers(l);
  }

  /**
   The dense layout that the test script expects to pass breaks the spacing
   rule: the A at index 4 ends at 160 and the B at index 6 starts at 165 on
   the same row, 5 apart. Its other three rules hold.
   */
  lemma DenseLayoutReport()
    ensures LayoutValid(DenseLayout(), NEIGHBOR_RADIUS) == Validity(true, true, false, true, false)
    ensures ScoreLayout(DenseLayout()) == INVALID_SCORE
  {
    var l := DenseLayout();
    DenseLayoutInside();
    assert !FarEnough(l[4], l[6], MIN_SPACING) by {
      assert EdgeDistanceSq(l[4], l[6]) == Square(5.0) + Square(0.0) == 25.0;
    }
    DenseLayoutMixed();
  }

  lemma DenseLayoutInside()
    ensures AllInside(DenseLayout()) && NoneInPlaza(DenseLayout())
  {
    var l := DenseLayout();
    assert InsideSite(l[0]) && InsideSite(l[1]) && InsideSite(l[2]) && InsideSite(l[3]);
    assert InsideSite(l[4]) && InsideSite(l[5]) && InsideSite(l[6]) && InsideSite(l[7]);
    assert !IntersectsPlaza(l[0]) && !IntersectsPlaza(l[1]) && !IntersectsPlaza(l[2]) && !IntersectsPlaza(l[3]);
    assert !IntersectsPlaza(l[4]) && !IntersectsPlaza(l[5]) && !IntersectsPlaza(l[6]) && !IntersectsPlaza(l[7]);
  }

  lemma DenseLayoutMixed()
    ensures NeighborMix(DenseLayout(), NEIGHBOR_RADIUS)
  {
    var l := DenseLayout();
    DenseLayoutLeftCloseBs();
    DenseLayoutRightCloseBs();
    assert l[1] in l;
    forall a | a in l && a.kind == A
      ensures CloseB(l, a, NEIGHBOR_RADIUS)
    {
      var k :| 0 <= k < |l| && l[k] == a;
      DenseLayoutTypeA(k);
    }
  }

  /** Each A on the left has the B 40 to its right. */
  lemma DenseLayoutLeftCloseBs()
    ensures CloseB(DenseLayout(), DenseLayout()[0], NEIGHBOR_RADIUS)
    ensures CloseB(DenseLayout(), DenseLayout()[2], NEIGHBOR_RADIUS)
  {
    var l := DenseLayout();
    assert SqDist(Center(l[0]), Center(l[1])) == Square(-40.0) + Square(0.0) == 1600.0;
    CloseBAt(l, l[0], 1, NEIGHBOR_RADIUS);
    assert SqDist(Center(l[2]), Center(l[3])) == Square(-40.0) + Square(0.0) == 1600.0;
    CloseBAt(l, l[2], 3, NEIGHBOR_RADIUS);
  }

  /** Both A on the right have the B at index 5 between them. */
  lemma DenseLayoutRightCloseBs()
    ensures CloseB(DenseLayout(), DenseLayout()[4], NEIGHBOR_RADIUS)
    ensures CloseB(DenseLayout(), DenseLayout()[7], NEIGHBOR_RADIUS)
  {
    var l := DenseLayout();
    assert SqDist(Center(l[4]), Center(l[5])) == Square(5.0) + Square(-35.0) == 1250.0;
    CloseBAt(l, l[4], 5, NEIGHBOR_RADIUS);
    assert SqDist(Center(l[7]), Center(l[5])) == Square(5.0) + Square(50.0) == 2525.0;
    CloseBAt(l, l[7], 5, NEIGHBOR_RADIUS);
  }

  /** The type A buildings of the dense layout are at indices 0, 2, 4 and 7. */
  lemma DenseLayoutTypeA(k: nat)
    requires k < |DenseLayout()| && DenseLayout()[k].kind == A
    ensures k == 0 || k == 2 || k == 4 || k == 7
  {
  }

  /** The B at index `j` is a close B for `a`. */
  lemma CloseBAt(layout: Layout, a: Rect, j: nat, radius: real)
    requires j < |layout| && layout[j].kind == B && Near(a, layout[j], radius)
    ensures CloseB(layout, a, radius)
  {
    assert layout[j] in layout;
  }
}
