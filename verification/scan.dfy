/** The grid scan of `tileGeoPolygon`: columns in the outer loop, rows in the
    inner loop, each advancing by one stride while the square starting there
    ends strictly before the box's far edge. */
module Scan {
  import opened Geometry
  import opened Grid
  import opened Containment

  /** Scans the grid over `b` and returns the accepted squares together with
      the number of candidates examined. */
  method ScanGrid(region: Polygon, b: Box, s: real, within: Within)
    returns (tiles: seq<Rect>, possible: nat)
    requires s > 0.0
    ensures tiles == Kept(within, region, Candidates(b, s))
    ensures possible == |Candidates(b, s)|
  {
    var nx, ny := Steps(b.minX, b.maxX, s), Steps(b.minY, b.maxY, s);
    tiles, possible := [], 0;
    var x, i := b.minX + s / 2.0, 0;
    while x + s < b.maxX
      invariant i <= nx
      invariant x == Coord(b.minX, s, i)
      invariant tiles == Kept(within, region, GridPrefix(b, s, i))
      invariant possible == |GridPrefix(b, s, i)|
      decreases nx - i
    {
      assert Fits(b.minX, b.maxX, s, i);
      var y, j := b.minY + s / 2.0, 0;
      ScanPrefixColumn(b, s, i);
      while y + s < b.maxY
        invariant j <= ny
        invariant y == Coord(b.minY, s, j)
        invariant tiles == Kept(within, region, ScanPrefix(b, s, i, j))
        invariant possible == |ScanPrefix(b, s, i, j)|
        decreases ny - j
      {
        assert Fits(b.minY, b.maxY, s, j);
        var rect := Rect(x, y, x + s, y + s);
        assert rect == Candidate(b, s, i, j);
        ScanPrefixStep(b, s, i, j);
        KeptSnoc(within, region, ScanPrefix(b, s, i, j), rect);
        CoordStep(b.minY, s, j);
        if within(rect, region) {
          tiles := tiles + [rect];
        }
        possible := possible + 1;
        y, j := y + s, j + 1;
      }
      assert !Fits(b.minY, b.maxY, s, j);
      CoordStep(b.minX, s, i);
      x, i := x + s, i + 1;
    }
    assert !Fits(b.minX, b.maxX, s, i);
  }
}
