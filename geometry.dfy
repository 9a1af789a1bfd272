/**
 * Integer axis-aligned boxes (x1, y1, x2, y2) and the two tests the box
 * engine is built on: closed containment and the corner-only overlap test.
 */
module Geometry {

  /** A box given by its top-left corner (x1, y1) and bottom-right corner (x2, y2). */
  datatype Box = Box(x1: int, y1: int, x2: int, y2: int)

  /** The corners are in order; boxes from contour rectangles of non-negative size are. */
  predicate WellFormed(b: Box) {
    b.x1 <= b.x2 && b.y1 <= b.y2
  }

  /** `inner` lies within the closed bounds of `outer`, component by component. */
  predicate IsContained(inner: Box, outer: Box) {
    inner.x1 >= outer.x1 && inner.y1 >= outer.y1 && inner.x2 <= outer.x2 && inner.y2 <= outer.y2
  }

  /** The point (x, y) lies within the closed bounds of `b`. */
  predicate CornerIn(x: int, y: int, b: Box) {
    b.x1 <= x <= b.x2 && b.y1 <= y <= b.y2
  }

  /**
   * The overlap test of the source: the top-left or the bottom-right corner
   * of `b` lies inside `a`. It is neither symmetric nor true intersection.
   */
  predicate AreOverlapping(a: Box, b: Box) {
    CornerIn(b.x1, b.y1, a) || CornerIn(b.x2, b.y2, a)
  }

  /** True rectangle intersection of closed boxes, for comparison with the corner test. */
  predicate Intersect(a: Box, b: Box) {
    a.x1 <= b.x2 && b.x1 <= a.x2 && a.y1 <= b.y2 && b.y1 <= a.y2
  }

  function Min(a: int, b: int): int { if a <= b then a else b }
  function Max(a: int, b: int): int { if a >= b then a else b }

  /**
   * The merged box of a pair: the smallest box containing both, and
   * well-formed when both of its parts are.
   */
  function Union(a: Box, b: Box): (u: Box)
    ensures IsContained(a, u) && IsContained(b, u)
    ensures forall c :: IsContained(a, c) && IsContained(b, c) ==> IsContained(u, c)
    ensures WellFormed(a) && WellFormed(b) ==> WellFormed(u)
  {
    Box(Min(a.x1, b.x1), Min(a.y1, b.y1), Max(a.x2, b.x2), Max(a.y2, b.y2))
  }

  lemma ContainedReflexive(b: Box)
    ensures IsContained(b, b)
  {
  }

  lemma ContainedTransitive(a: Box, b: Box, c: Box)
    requires IsContained(a, b) && IsContained(b, c)
    ensures IsContained(a, c)
  {
  }

  /** Mutual containment is equality. */
  lemma ContainedAntisymmetric(a: Box, b: Box)
    requires IsContained(a, b) && IsContained(b, a)
    ensures a == b
  {
  }

  /** A box strictly inside another is contained in it, and not the other way round. */
  lemma StrictlyInside(a: Box, b: Box)
    requires a.x1 > b.x1 && a.y1 > b.y1 && a.x2 < b.x2 && a.y2 < b.y2
    ensures IsContained(a, b) && !IsContained(b, a)
  {
  }

  /** A well-formed box contained in `a` has its corners in `a`, so the corner test fires. */
  lemma ContainedImpliesOverlapping(a: Box, b: Box)
    requires WellFormed(b) && IsContained(b, a)
    ensures AreOverlapping(a, b)
  {
  }

  /** The corner test is not symmetric: a box inside a larger one overlaps it in one direction only. */
  lemma OverlappingNotSymmetric()
    ensures AreOverlapping(Box(-5, -5, 20, 20), Box(0, 0, 10, 10))
    ensures !AreOverlapping(Box(0, 0, 10, 10), Box(-5, -5, 20, 20))
  {
  }

  /** Two crossing bars intersect, yet neither holds a corner of the other. */
  lemma CornerTestMissesCrossing()
    ensures Intersect(Box(0, 2, 10, 4), Box(2, 0, 4, 10))
    ensures !AreOverlapping(Box(0, 2, 10, 4), Box(2, 0, 4, 10))
    ensures !AreOverlapping(Box(2, 0, 4, 10), Box(0, 2, 10, 4))
  {
  }

  /** Whenever the corner test fires between well-formed boxes, they truly intersect. */
  lemma OverlappingImpliesIntersect(a: Box, b: Box)
    requires WellFormed(a) && WellFormed(b) && AreOverlapping(a, b)
    ensures Intersect(a, b)
  {
  }
}
