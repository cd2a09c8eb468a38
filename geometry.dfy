/**
 * Page geometry: axis-aligned rectangles and points in page coordinates.
 * The PDF library's own rectangle test is not part of this model; it is
 * stood in for by positive-area overlap.
 */
module Geometry {

  /** A rectangle with top-left corner (x0, y0) and bottom-right corner (x1, y1). */
  datatype Rect = Rect(x0: real, y0: real, x1: real, y1: real)

  datatype Point = Point(x: real, y: real)

  /** A rectangle is empty when it has no area. */
  predicate IsEmpty(r: Rect) {
    r.x1 <= r.x0 || r.y1 <= r.y0
  }

  /** Two rectangles intersect when both have area and their interiors overlap. */
  predicate Intersects(a: Rect, b: Rect) {
    !IsEmpty(a) && !IsEmpty(b) &&
    a.x0 < b.x1 && b.x0 < a.x1 && a.y0 < b.y1 && b.y0 < a.y1
  }
}
