/** The bounding-box half of the engine: the per-axis minimum and maximum
    of the ring's coordinates. */
module Bounds {
  import opened Geometry

  /** The smallest of a non-empty list of numbers. */
  function MinOf(xs: seq<real>): (m: real)
    requires |xs| > 0
    ensures m in xs
    ensures forall k :: 0 <= k < |xs| ==> m <= xs[k]
  {
    if |xs| == 1 then xs[0]
    else
      var rest := MinOf(xs[1..]);
      assert forall k :: 1 <= k < |xs| ==> xs[k] == xs[1..][k - 1];
      if xs[0] <= rest then xs[0] else rest
  }

  /** The largest of a non-empty list of numbers. */
  function MaxOf(xs: seq<real>): (m: real)
    requires |xs| > 0
    ensures m in xs
    ensures forall k :: 0 <= k < |xs| ==> xs[k] <= m
  {
    if |xs| == 1 then xs[0]
    else
      var rest := MaxOf(xs[1..]);
      assert forall k :: 1 <= k < |xs| ==> xs[k] == xs[1..][k - 1];
      if xs[0] >= rest then xs[0] else rest
  }

  /** The first coordinate of every point, in ring order. */
  function Xs(pts: seq<Point>): (xs: seq<real>)
    ensures |xs| == |pts|
    ensures forall k :: 0 <= k < |pts| ==> xs[k] == pts[k].x
  {
    seq(|pts|, k requires 0 <= k < |pts| => pts[k].x)
  }

  /** The second coordinate of every point, in ring order. */
  function Ys(pts: seq<Point>): (ys: seq<real>)
    ensures |ys| == |pts|
    ensures forall k :: 0 <= k < |pts| ==> ys[k] == pts[k].y
  {
    seq(|pts|, k requires 0 <= k < |pts| => pts[k].y)
  }

  /** The bounding box of a non-empty ring: it encloses every point, and each
      of its four sides touches some point, so no smaller box encloses them. */
  function BoundingBox(pts: seq<Point>): (b: Box)
    requires |pts| > 0
    ensures Encloses(b, pts)
    ensures exists k :: 0 <= k < |pts| && pts[k].x == b.minX
    ensures exists k :: 0 <= k < |pts| && pts[k].x == b.maxX
    ensures exists k :: 0 <= k < |pts| && pts[k].y == b.minY
    ensures exists k :: 0 <= k < |pts| && pts[k].y == b.maxY
    ensures b.minX <= b.maxX && b.minY <= b.maxY
  {
    var xs, ys := Xs(pts), Ys(pts);
    Box(MinOf(xs), MinOf(ys), MaxOf(xs), MaxOf(ys))
  }

  /** Any box that encloses the ring contains its bounding box. */
  lemma BoundingBoxIsSmallest(pts: seq<Point>, b: Box)
    requires |pts| > 0
    requires Encloses(b, pts)
    ensures var bb := BoundingBox(pts);
      b.minX <= bb.minX && b.minY <= bb.minY && bb.maxX <= b.maxX && bb.maxY <= b.maxY
  {
  }
}
