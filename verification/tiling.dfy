/** `tileGeoPolygon`: bound the ring, scan the grid half a stride inside the
    box, keep the squares the containment primitive accepts, and return them
    with the region, the stride and the number of candidates examined. */
module Tiling {
  import opened Geometry
  import opened Bounds
  import opened Grid
  import opened Containment
  import opened Scan

  /** Inputs for which no tiling is produced. */
  datatype TileError =
    | EmptyRing          // no points, so no bounding box
    | NonPositiveStride  // the scan would never advance

  datatype Result<T> = Ok(value: T) | Err(error: TileError)

  /** The record `tileGeoPolygon` returns: the region, the accepted tiles in
      scan order, the stride, and how many candidates were examined. */
  datatype TilingResult = TilingResult(region: Polygon, tiles: seq<Rect>, stride: real, possible: nat)

  /** Everything the scan promises about the tiles it keeps from the grid
      over `b`: membership, containment, shape, position, order and count. */
  lemma KeptCandidatesFacts(b: Box, s: real, within: Within, region: Polygon)
    requires s > 0.0
    ensures var cs := Candidates(b, s);
      var ks := Kept(within, region, cs);
      && |cs| == Steps(b.minX, b.maxX, s) * Steps(b.minY, b.maxY, s)
      && |ks| <= |cs|
      && ColumnMajor(ks)
      && (forall t :: t in ks <==> OnGrid(b, s, t) && within(t, region))
      && (forall t :: t in ks ==> IsSquare(t, s) && InShrunkBox(b, s, t))
  {
    var cs := Candidates(b, s);
    var ks := Kept(within, region, cs);
    CandidateCount(b, s);
    CandidatesColumnMajor(b, s);
    KeptColumnMajor(within, region, cs);
    forall t
      ensures t in ks <==> OnGrid(b, s, t) && within(t, region)
      ensures t in ks ==> IsSquare(t, s) && InShrunkBox(b, s, t)
    {
      KeptIff(within, region, cs, t);
      CandidatesAreGrid(b, s, t);
      if t in ks {
        OnGridShape(b, s, t);
      }
    }
  }

  /** The tiling of ring `poly` with squares of side `stride`. An empty ring
      or a stride that is not positive yields an error; otherwise the tiles
      are exactly the grid squares that `within` accepts, in scan order. */
  function Tile(poly: seq<Point>, stride: real, within: Within): (r: Result<TilingResult>)
    ensures |poly| == 0 ==> r == Err(EmptyRing)
    ensures |poly| > 0 && stride <= 0.0 ==> r == Err(NonPositiveStride)
    ensures |poly| > 0 && stride > 0.0 ==> r.Ok?
    ensures r.Ok? ==>
      var b := BoundingBox(poly);
      var res := r.value;
      && res.region == Polygon(poly)
      && res.stride == stride
      && res.possible == Steps(b.minX, b.maxX, stride) * Steps(b.minY, b.maxY, stride)
      && |res.tiles| <= res.possible
      && ColumnMajor(res.tiles)
      && (forall t :: t in res.tiles <==> OnGrid(b, stride, t) && within(t, res.region))
      && (forall t :: t in res.tiles ==> IsSquare(t, stride) && InShrunkBox(b, stride, t))
  {
    if |poly| == 0 then Err(EmptyRing)
    else if stride <= 0.0 then Err(NonPositiveStride)
    else
      var b := BoundingBox(poly);
      var region := Polygon(poly);
      var cs := Candidates(b, stride);
      KeptCandidatesFacts(b, stride, within, region);
      Ok(TilingResult(region, Kept(within, region, cs), stride, |cs|))
  }

  /** The engine itself: validates the inputs, bounds the ring and runs the
      nested scan, producing the same result as `Tile`. */
  method TileGeoPolygon(poly: seq<Point>, stride: real, within: Within)
    returns (r: Result<TilingResult>)
    ensures r == Tile(poly, stride, within)
  {
    if |poly| == 0 {
      return Err(EmptyRing);
    }
    if stride <= 0.0 {
      return Err(NonPositiveStride);
    }
    var b := BoundingBox(poly);
    var region := Polygon(poly);
    var tiles, possible := ScanGrid(region, b, stride, within);
    return Ok(TilingResult(region, tiles, stride, possible));
  }

  /** The closed ring of a 10 by 10 square with its corner at the origin. */
  function TenSquare(): seq<Point> {
    [Point(0.0, 0.0), Point(0.0, 10.0), Point(10.0, 10.0), Point(10.0, 0.0), Point(0.0, 0.0)]
  }

  lemma TenSquareBox()
    ensures BoundingBox(TenSquare()) == Box(0.0, 0.0, 10.0, 10.0)
  {
    var sq := TenSquare();
    assert Xs(sq) == [0.0, 0.0, 10.0, 10.0, 0.0];
    assert Ys(sq) == [0.0, 10.0, 10.0, 0.0, 0.0];
  }

  lemma TenSquareCandidates()
    ensures Candidates(Box(0.0, 0.0, 10.0, 10.0), 5.0) == [Rect(2.5, 2.5, 7.5, 7.5)]
  {
  }

  /** A 10 by 10 square tiled with stride 5 has one candidate,
      `[2.5, 2.5, 7.5, 7.5]`, kept exactly when `within` accepts it. */
  lemma TenByTenSquare(within: Within)
    ensures
      var tile := Rect(2.5, 2.5, 7.5, 7.5);
      var r := Tile(TenSquare(), 5.0, within);
      && r.Ok?
      && r.value.possible == 1
      && r.value.tiles == (if within(tile, Polygon(TenSquare())) then [tile] else [])
  {
    var tile := Rect(2.5, 2.5, 7.5, 7.5);
    TenSquareBox();
    TenSquareCandidates();
    assert Kept(within, Polygon(TenSquare()), [tile]) == Kept(within, Polygon(TenSquare()), []) + (if within(tile, Polygon(TenSquare())) then [tile] else []);
  }

  /** Without a positive stride a loop guard of the scan (on either axis),
      once it passes at the first grid line, passes at every later one: that
      loop never ends. */
  lemma GuardNeverFailsWithoutPositiveStride(lo: real, hi: real, s: real, k: nat)
    requires s <= 0.0
    requires Fits(lo, hi, s, 0)
    ensures Fits(lo, hi, s, k)
  {
  }
}
