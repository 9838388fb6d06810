/**
  Integer geometry of the broad phase: points, axis-aligned boxes given by a
  lower and an upper corner, and screen rectangles given by a top-left corner
  plus a width and a height (the shape of a sprite's `rect`).

  The screen's y axis grows downwards, so a rectangle's top-left corner is
  its lower corner and its bottom-right corner is its upper corner.
 */
module Geometry {

  datatype Point = Point(x: int, y: int)

  /** An axis-aligned bounding box: `lo` is the lower corner, `hi` the upper one. */
  datatype Box = Box(lo: Point, hi: Point)

  /** A screen rectangle: top-left corner `(x, y)`, width `w`, height `h`. */
  datatype Rect = Rect(x: int, y: int, w: int, h: int)

  /** A box whose lower corner is below or at its upper corner on both axes. */
  predicate WellFormed(b: Box) {
    b.lo.x <= b.hi.x && b.lo.y <= b.hi.y
  }

  /** The box spanned by a rectangle: top-left to bottom-right. */
  function RectBox(r: Rect): Box {
    Box(Point(r.x, r.y), Point(r.x + r.w, r.y + r.h))
  }

  /** A rectangle grown by `m` on every side. */
  function Grow(r: Rect, m: int): Rect {
    Rect(r.x - m, r.y - m, r.w + 2 * m, r.h + 2 * m)
  }

  /**
    The broad-phase overlap test between a body's rectangle and a node's box:
    it fails exactly when the rectangle lies strictly on one side of the box
    on some axis, so rectangles whose edges only touch the box overlap it.
   */
  predicate Overlaps(r: Rect, b: Box) {
    !(r.x + r.w < b.lo.x || r.x > b.hi.x || r.y + r.h < b.lo.y || r.y > b.hi.y)
  }

  /** `inner` lies within `outer` on both axes; shared edges are allowed. */
  predicate Contains(outer: Box, inner: Box) {
    outer.lo.x <= inner.lo.x && inner.hi.x <= outer.hi.x &&
    outer.lo.y <= inner.lo.y && inner.hi.y <= outer.hi.y
  }

  /** The closed region of a box holds the point. */
  predicate InBox(p: Point, b: Box) {
    b.lo.x <= p.x <= b.hi.x && b.lo.y <= p.y <= b.hi.y
  }

  /**
    The overlap test agrees with its geometric meaning: for a rectangle of
    non-negative size and a well-formed box, the test passes exactly when
    some lattice point lies in both closed regions.
   */
  lemma OverlapsIffCommonPoint(r: Rect, b: Box)
    requires r.w >= 0 && r.h >= 0 && WellFormed(b)
    ensures Overlaps(r, b) <==> exists p: Point :: InBox(p, RectBox(r)) && InBox(p, b)
  {
    if Overlaps(r, b) {
      var px := if r.x < b.lo.x then b.lo.x else r.x;
      var py := if r.y < b.lo.y then b.lo.y else r.y;
      assert InBox(Point(px, py), RectBox(r)) && InBox(Point(px, py), b);
    }
  }

  /** Growing a box keeps whatever overlapped it overlapping. */
  lemma OverlapsContainer(r: Rect, outer: Box, inner: Box)
    requires Contains(outer, inner) && Overlaps(r, inner)
    ensures Overlaps(r, outer)
  {
  }

  /** Containment is transitive. */
  lemma ContainsTransitive(a: Box, b: Box, c: Box)
    requires Contains(a, b) && Contains(b, c)
    ensures Contains(a, c)
  {
  }
}
