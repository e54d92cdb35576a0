# geo-rectangles tiling engine in Dafny

This project models `tileGeoPolygon` from geo-rectangles. The function
approximates the interior of a polygon with equal axis-aligned squares, and
every square it returns must lie completely inside the polygon. It works in
two steps:

1. **Bounding box.** It takes the per-axis minimum and maximum of the ring's
   coordinates (`Bounds`).
2. **Grid scan.** It starts half a stride inside the box's lower-left corner.
   It walks columns in the outer loop and rows in the inner loop, one stride
   at a time, while the square starting there ends strictly before the box's
   far edge. Each square it meets is a *candidate*, and every candidate is
   counted in `possible`. A candidate is kept only when the containment test
   accepts it (`Grid`, `Containment`, `Scan`).

The engine returns the region, the kept tiles in scan order, the stride and
`possible` (`Tiling`).

The containment test belongs to an outside geometry library, so the model
takes it as a parameter `within: (Rect, Polygon) -> bool`. Every property is
proved for every such function. Coordinates are exact `real`s. The scan keeps
the source's running coordinate, `x := x + stride`. It also keeps an integer
index `i`, and a loop invariant ties the two together:
`x == minX + stride/2 + i·stride`.

Modules:

- `Geometry`: points, rectangles `[x, y, x2, y2]`, boxes, the polygon record, and the column-major order.
- `Bounds`: `MinOf`/`MaxOf` and the bounding box.
- `Grid`: the reference description of the scan.
  - `Coord` is the k-th grid line.
  - `Fits` is the strict loop guard.
  - `Steps` is a closed-form count of the grid lines the guard admits.
  - `Candidates` lists the candidates in column-major order.
- `Containment`: the filter `Kept` and its properties.
- `Scan`: the nested while loops, proved to produce `Kept(Candidates)` and its length.
- `Tiling`: the result record, input errors, the functional `Tile` and the imperative `TileGeoPolygon`.

## Model

| member | source | states |
|---|---|---|
| `Grid.Coord` | static/geo.js:54-55 | Defines grid line `k` on one axis: half a stride inside the lower edge, then `k` strides further. It is the index form of the running `x`/`y` the loops advance by `+= stride` (lines 77-79). |
| `Grid.Fits` | static/geo.js:64-66 | Defines the strict guard of both loops: the square starting at grid line `k` ends strictly before the far edge. |
| `Grid.Candidate` | static/geo.js:68 | Defines the candidate `[x, y, x+stride, y+stride]` at column `i`, row `j`. Its contract states that it is a square of side `stride`. |
| `Grid.Candidates` | static/geo.js:63-80 | Defines the list of candidates in the order the nested loops visit them: all admitted rows of column 0, then column 1, and so on. |
| `Containment.Kept` | static/geo.js:68-71 | Defines the accepted candidates in their original order. Its contract states that there are never more of them than candidates. |
| `Bounds.MinOf` | static/geo.js:42-43 | The minimum is one of the listed values and is at most every one of them. |
| `Bounds.MaxOf` | static/geo.js:44-45 | The maximum is one of the listed values and is at least every one of them. |
| `Bounds.BoundingBox` | static/geo.js:40-45 | The box encloses every point of the ring. Each of its four sides is attained by some point. `minX <= maxX` and `minY <= maxY`. |
| `Bounds.BoundingBoxIsSmallest` | static/geo.js:40-45 | Any box that encloses the ring contains the computed bounding box, so no smaller box exists. |
| `Grid.FitsIff` | static/geo.js:63-66 | The strict far-edge guard `coord + stride < max` holds at grid line `k` exactly when `k < (max - min)/stride - 3/2`. |
| `Grid.Steps` | static/geo.js:54-66 | With a positive stride, the guard admits grid line `k` exactly when `k` is below the returned count. So each loop runs exactly that many times. |
| `Grid.CoordStep` | static/geo.js:77-79 | Proof helper for the scan's loop invariant: the running coordinate after one `+= stride` is the index form of the next grid line. |
| `Grid.CoordMonotone` | static/geo.js:63-79 | Proof helper for the ordering proof: with a positive stride, grid lines strictly increase along each axis. |
| `Grid.CandidateCount` | static/geo.js:59-80 | The number of candidates equals (admitted columns) × (admitted rows). |
| `Grid.CandidatesAreGrid` | static/geo.js:63-69 | A rectangle is a candidate exactly when it is `[x, y, x+stride, y+stride]` at some index pair `(i, j)` that both guards admit. |
| `Grid.OnGridShape` | static/geo.js:54-69 | Every candidate is a square of side `stride`. It satisfies `x >= minX + stride/2`, `x + stride < maxX`, `y >= minY + stride/2` and `y + stride < maxY`. |
| `Grid.CandidatesColumnMajor` | static/geo.js:63-80 | Candidates come out column-major and strictly ordered: x ascending, then y ascending within a column. |
| `Containment.KeptIff` | static/geo.js:68-71 | A rectangle is kept if and only if it is a candidate and the containment test accepts it. Nothing rejected is kept, and nothing accepted is dropped. |
| `Containment.KeptAllWithin` | static/geo.js:70-71 | Every kept rectangle satisfies the containment test. |
| `Containment.KeptColumnMajor` | static/geo.js:68-71 | Filtering keeps the candidates' order, so column-major input gives column-major kept tiles. |
| `Scan.ScanGrid` | static/geo.js:59-80 | The nested loops return exactly the accepted candidates, in scan order. They set `possible` to the number of candidates examined. |
| `Tiling.KeptCandidatesFacts` | static/geo.js:59-80 | The kept tiles are at most `possible` in number and are column-major. They are exactly the accepted grid squares. Each one is a stride-sided square inside the shrunken box. `possible` = columns × rows. |
| `Tiling.Tile` | static/geo.js:39-87 | An empty ring or a non-positive stride gives an error; any other input gives a result. The result holds the ring unchanged as its region and the input stride. It also holds `possible` = columns × rows over the bounding box, and the tiles. The tiles are column-major, at most `possible` in number, and are exactly the accepted grid squares. Each one is a square of side `stride` inside the shrunken box. |
| `Tiling.TileGeoPolygon` | static/geo.js:39-87 | The imperative engine (input checks, bounding box, nested scan) returns the same result as `Tile` for every input. |
| `Tiling.TenSquareBox` | static/geo.js:40-45 | The closed 10×10 ring at the origin has bounding box `(0, 0, 10, 10)`. |
| `Tiling.TenSquareCandidates` | static/geo.js:54-69 | The box `(0, 0, 10, 10)` with stride 5 has exactly one candidate, `[2.5, 2.5, 7.5, 7.5]`. |
| `Tiling.TenByTenSquare` | static/geo.js:54-86 | Tiling the 10×10 square with stride 5 succeeds with `possible` = 1. It keeps `[2.5, 2.5, 7.5, 7.5]` exactly when the containment test accepts it. |
| `Tiling.GuardNeverFailsWithoutPositiveStride` | static/geo.js:63-79 | On either axis, with stride ≤ 0: if the loop guard passes at the first grid line, it passes at every later one, so that loop never ends. |

## Left out

- `searchAndTile` and `searchForGeoPolygon` (static/geo.js:11-29) are left out. They fetch from and parse the Nominatim service, which is network I/O.
- static/index.js is left out. It is page wiring, map rendering and download-link generation.
- `turf.booleanWithin` is the abstract parameter `within`. Its internals belong to an outside library. A primitive that throws on a malformed polygon is not modelled, because `within` is total.
- `turf.polygon`, `turf.bboxPolygon` and `turf.featureCollection` are plain records here: `Polygon`, `Rect` and `seq<Rect>`. `turf.polygon` also validates the ring (at least four positions, first equals last). That check is library-internal, so the model accepts any non-empty ring.
- The empty ring is reported as `EmptyRing`. In JavaScript, `Math.min()` and `Math.max()` of nothing give `±Infinity`, and no real number represents them. The ring is then handed to `turf.polygon`.
- IEEE-754 rounding is left out. Repeated `x += stride` drifts in floating point but is exact on reals. NaN and infinite coordinates or strides are also left out.
- The `round` option is left out. It appears only in a doc comment (static/geo.js:8) and is not implemented. The same goes for the documented return type (static/geo.js:9, 37), which differs from the record the code returns. The model returns what the code returns.
- Console logging is left out.
- `Tiling.Tile` accepts any non-empty ring. The code has no check for fewer than three points.
- `Tiling.Tile` rejects every stride ≤ 0, but one such input ends normally in the code. With stride 0 and a ring whose points all share one x (so `polyMinX == polyMaxX`), the outer guard `x + 0 < polyMaxX` fails at once and the code returns no tiles with `possible` 0. Every other stride ≤ 0 makes the code loop forever (see "## Findings"), so the model treats the whole range as an error.
- `Bounds.BoundingBox` returns a box for rings of any length. `Math.min(...pointsX)` and `Math.max(...pointsX)` (static/geo.js:42-45) pass every coordinate as a separate argument. JavaScript engines cap the number of arguments and throw `RangeError` past it (roughly 10^5 points on common engines). The model does not include that engine limit, because it is not part of the language and differs between engines.
- Area is not modelled, so nothing is stated about how coverage changes with the stride.
- Determinism is not stated as a lemma. It holds by construction, because `Tile` is a function.

## Findings

| source | as written | input that shows it | evidently intended | confidence | as-written member | corrected member |
|---|---|---|---|---|---|---|
| static/geo.js:63-79 | The stride is never checked. With stride ≤ 0, neither `x` nor `y` ever increases, so a guard that has passed once stays true. | The 10×10 square ring with stride 0. In the first column, the inner guard `y + 0 < 10` holds at every row, so the inner loop (line 66) never ends. | Reject a non-positive stride before scanning. | medium; not executed | `Tiling.GuardNeverFailsWithoutPositiveStride` | `Tiling.Tile` (returns `Err(NonPositiveStride)`; `Tiling.TileGeoPolygon` matches it) |
