/**
 Site configuration shared read-only by every component: the site, its
 setback, the plaza, the spacing and neighbour rules, and the catalogue of
 building types with their fixed footprints.
 */
module Config {

  const SITE_WIDTH: real := 200.0
  const SITE_HEIGHT: real := 140.0
  const SETBACK: real := 10.0
  const MIN_SPACING: real := 15.0
  const NEIGHBOR_RADIUS: real := 60.0

  const PLAZA_X: real := 85.0
  const PLAZA_Y: real := 55.0
  const PLAZA_W: real := 40.0
  const PLAZA_H: real := 40.0

  /** The two building types of the catalogue. */
  datatype Kind = A | B

  /** Width of a building of the given type (A = 30, B = 20). */
  function Width(k: Kind): (w: real)
    ensures 0.0 < w <= SITE_WIDTH - 2.0 * SETBACK
  {
    match k
    case A => 30.0
    case B => 20.0
  }

  /** Height of a building of the given type (both 20). */
  function Height(k: Kind): (h: real)
    ensures 0.0 < h <= SITE_HEIGHT - 2.0 * SETBACK
  {
    match k
    case A => 20.0
    case B => 20.0
  }

  /** The other type: A becomes B and B becomes A. */
  function Flip(k: Kind): (k': Kind)
    ensures k' != k
  {
    if k == A then B else A
  }
}
