/**
 Facts about products of reals that the solver does not find on its own.
 Squares go through `Square`, and each fact is first proved for a product
 of two distinct terms, which the solver handles more reliably than `a * a`.
 */
module RealArith {

  /** The product of two non-negative reals is non-negative. */
  lemma ProductNonNegative(a: real, b: real)
    requires 0.0 <= a && 0.0 <= b
    ensures 0.0 <= a * b
  {
  }

  /** The product of two positive reals is positive. */
  lemma ProductPositive(a: real, b: real)
    requires 0.0 < a && 0.0 < b
    ensures 0.0 < a * b
  {
  }

  function Square(a: real): real
  {
    a * a
  }

  /** A square is never negative, and it is positive away from zero. */
  lemma {:induction false} SquareSign(a: real)
    ensures 0.0 <= Square(a)
    ensures a != 0.0 ==> 0.0 < Square(a)
  {
    var m := if a < 0.0 then -a else a;
    assert Square(a) == m * m;
    if m == 0.0 {
      assert Square(a) == 0.0 * 0.0;
    } else {
      var h := m / 2.0;
      ProductPositive(m, h);
      assert Square(a) == 2.0 * (m * h);
    }
  }

  /** Squaring is monotone on the non-negative reals. */
  lemma {:induction false} SquareMonotone(a: real, b: real)
    requires 0.0 <= a <= b
    ensures Square(a) <= Square(b)
  {
    ProductNonNegative(b - a, b + a);
    assert Square(b) - Square(a) == (b - a) * (b + a);
  }

  /** A sum of two squares vanishes exactly when both terms are zero. */
  lemma {:induction false} SumOfSquaresZero(a: real, b: real)
    ensures Square(a) + Square(b) == 0.0 <==> a == 0.0 && b == 0.0
  {
    SquareSign(a);
    SquareSign(b);
    if a == 0.0 && b == 0.0 {
      assert Square(a) == 0.0 * 0.0;
      assert Square(b) == 0.0 * 0.0;
    }
  }
}
