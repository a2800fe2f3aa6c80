/**
 The random source. Every random primitive of the program consumes one value
 of an arbitrary stream of reals in [0, 1), read at a cursor that the caller
 threads through each operation. A fixed stream therefore fixes every
 outcome, and every property proved below holds for all streams.
 */
module Oracle {

  import opened RealArith

  /** One draw of `random.random()`. */
  type Unit = u: real | 0.0 <= u < 1.0

  /** An unbounded sequence of draws. */
  type Stream = nat -> Unit

  /** Multiplying a non-negative amount by a draw stays within [0, amount]. */
  lemma {:induction false} ScaleUnit(a: real, u: Unit)
    requires 0.0 <= a
    ensures 0.0 <= a * u <= a
    ensures 0.0 < a ==> a * u < a
  {
    ProductNonNegative(a, u);
    assert a * (1.0 - u) == a - a * u;
    if 0.0 < a {
      assert 0.0 < a * (1.0 - u);
    } else {
      ProductNonNegative(a, 1.0 - u);
    }
  }

  /** `a * u` for a draw `u`: a fraction of `a` that stays between 0 and `a`. */
  function Scaled(a: real, u: Unit): (r: real)
    ensures 0.0 <= a ==> 0.0 <= r <= a
    ensures 0.0 < a ==> r < a
  {
    if 0.0 <= a then ScaleUnit(a, u); a * u else a * u
  }

  /** `random.uniform(lo, hi)`, which is `lo + (hi - lo) * random()`. */
  function Uniform(s: Stream, pos: nat, lo: real, hi: real): (v: real)
    ensures lo <= hi ==> lo <= v <= hi
  {
    lo + Scaled(hi - lo, s(pos))
  }

  /** A uniform index below `n`: what `random.choice` and `random.randint` draw. */
  function Below(s: Stream, pos: nat, n: nat): (i: nat)
    requires 0 < n
    ensures i < n
  {
    Scaled(n as real, s(pos)).Floor
  }

  /** `random.randint(lo, hi)`: an integer in the closed range. */
  function RandInt(s: Stream, pos: nat, lo: int, hi: int): (v: int)
    requires lo <= hi
    ensures lo <= v <= hi
  {
    lo + Below(s, pos, hi - lo + 1)
  }
}
