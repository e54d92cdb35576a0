/** Plain value types for the tiling engine: points of a polygon ring,
    axis-aligned rectangles in the `[x, y, x2, y2]` form the engine emits,
    bounding boxes, and the polygon record the result carries back. */
module Geometry {

  /** One vertex of a polygon ring, `[x, y]` in the GeoJSON input. */
  datatype Point = Point(x: real, y: real)

  /** An axis-aligned rectangle given by its lower-left corner `(x1, y1)`
      and its upper-right corner `(x2, y2)`. */
  datatype Rect = Rect(x1: real, y1: real, x2: real, y2: real)

  /** The per-axis extremes of a set of points. */
  datatype Box = Box(minX: real, minY: real, maxX: real, maxY: real)

  /** The region a tiling is computed for: the ring exactly as supplied. */
  datatype Polygon = Polygon(ring: seq<Point>)

  /** `r` is a square of side `s` anchored at its lower-left corner. */
  predicate IsSquare(r: Rect, s: real) {
    r.x2 == r.x1 + s && r.y2 == r.y1 + s
  }

  /** `b` bounds every point of `pts`. */
  predicate Encloses(b: Box, pts: seq<Point>) {
    forall k :: 0 <= k < |pts| ==>
      b.minX <= pts[k].x <= b.maxX && b.minY <= pts[k].y <= b.maxY
  }

  /** Column-major precedence of two rectangles: further left, or in the
      same column and lower down. */
  predicate Before(a: Rect, b: Rect) {
    a.x1 < b.x1 || (a.x1 == b.x1 && a.y1 < b.y1)
  }

  /** `rs` is strictly ordered column by column, bottom to top. */
  predicate ColumnMajor(rs: seq<Rect>) {
    forall p, q :: 0 <= p < q < |rs| ==> Before(rs[p], rs[q])
  }

  /** Appending a rectangle that every earlier one precedes keeps the order. */
  lemma ColumnMajorSnoc(rs: seq<Rect>, r: Rect)
    requires ColumnMajor(rs)
    requires forall p :: 0 <= p < |rs| ==> Before(rs[p], r)
    ensures ColumnMajor(rs + [r])
  {
  }
}
