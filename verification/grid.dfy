/** The reference description of the scan grid: where the k-th column or row
    starts, how many of them the strict far-edge guard admits, the candidate
    square at each grid position, and the column-major list of all candidates. */
module Grid {
  import opened Geometry

  /** The coordinate of the k-th grid line on one axis: half a stride inside
      the box's lower edge, then `k` whole strides further. */
  function Coord(lo: real, s: real, k: nat): real {
    lo + s / 2.0 + (k as real) * s
  }

  /** The scan's guard on one axis: a square starting at grid line `k` ends
      strictly before the box's far edge `hi`. */
  predicate Fits(lo: real, hi: real, s: real, k: nat) {
    Coord(lo, s, k) + s < hi
  }

  /** Multiplying both sides by a positive stride keeps a strict order. */
  lemma ScaleLess(a: real, b: real, s: real)
    requires s > 0.0
    ensures a * s < b * s <==> a < b
  {
  }

  /** The guard for grid line `k` in terms of the stride count the box
      leaves room for. */
  lemma FitsIff(lo: real, hi: real, s: real, k: nat)
    requires s > 0.0
    ensures Fits(lo, hi, s, k) <==> (k as real) < (hi - lo) / s - 1.5
  {
    var d := (hi - lo) / s - 1.5;
    assert d * s == hi - lo - 1.5 * s;
    ScaleLess(k as real, d, s);
  }

  /** Grid lines are strictly increasing along an axis. */
  lemma CoordMonotone(lo: real, s: real, k: nat, k': nat)
    requires s > 0.0
    requires k < k'
    ensures Coord(lo, s, k) < Coord(lo, s, k')
  {
  }

  /** The next grid line is one stride further on. */
  lemma CoordStep(lo: real, s: real, k: nat)
    ensures Coord(lo, s, k + 1) == Coord(lo, s, k) + s
  {
  }

  /** How many grid lines on one axis pass the guard: exactly the indices
      below the result do, so the scan along this axis visits that many. */
  function Steps(lo: real, hi: real, s: real): (n: nat)
    requires s > 0.0
    ensures forall k: nat :: k < n <==> Fits(lo, hi, s, k)
  {
    var d := (hi - lo) / s - 1.5;
    var n: nat := if d <= 0.0 then 0 else -((-d).Floor);
    assert forall k: nat :: k < n <==> Fits(lo, hi, s, k) by {
      forall k: nat ensures k < n <==> Fits(lo, hi, s, k) {
        FitsIff(lo, hi, s, k);
      }
    }
    n
  }

  /** The candidate square at column `i` and row `j`. */
  function Candidate(b: Box, s: real, i: nat, j: nat): (r: Rect)
    ensures IsSquare(r, s)
  {
    var x, y := Coord(b.minX, s, i), Coord(b.minY, s, j);
    Rect(x, y, x + s, y + s)
  }

  /** The first `n` candidates of column `i`, bottom to top. */
  function ColumnPrefix(b: Box, s: real, i: nat, n: nat): (cs: seq<Rect>)
    ensures |cs| == n
  {
    if n == 0 then [] else ColumnPrefix(b, s, i, n - 1) + [Candidate(b, s, i, n - 1)]
  }

  /** All candidates of the first `m` columns, column by column. */
  function GridPrefix(b: Box, s: real, m: nat): seq<Rect>
    requires s > 0.0
  {
    if m == 0 then []
    else GridPrefix(b, s, m - 1) + ColumnPrefix(b, s, m - 1, Steps(b.minY, b.maxY, s))
  }

  /** Every candidate the scan visits, in the order it visits them. */
  function Candidates(b: Box, s: real): seq<Rect>
    requires s > 0.0
  {
    GridPrefix(b, s, Steps(b.minX, b.maxX, s))
  }

  /** The candidates visited before the scan reaches column `i`, row `j`. */
  function ScanPrefix(b: Box, s: real, i: nat, j: nat): seq<Rect>
    requires s > 0.0
  {
    GridPrefix(b, s, i) + ColumnPrefix(b, s, i, j)
  }

  /** Visiting the candidate at column `i`, row `j` extends the prefix by it. */
  lemma ScanPrefixStep(b: Box, s: real, i: nat, j: nat)
    requires s > 0.0
    ensures ScanPrefix(b, s, i, j + 1) == ScanPrefix(b, s, i, j) + [Candidate(b, s, i, j)]
  {
  }

  /** Starting a column begins from the columns already finished, and
      finishing it yields one more finished column. */
  lemma ScanPrefixColumn(b: Box, s: real, i: nat)
    requires s > 0.0
    ensures ScanPrefix(b, s, i, 0) == GridPrefix(b, s, i)
    ensures ScanPrefix(b, s, i, Steps(b.minY, b.maxY, s)) == GridPrefix(b, s, i + 1)
  {
  }

  /** `c` is the candidate at some grid position the guards admit. */
  predicate OnGrid(b: Box, s: real, c: Rect)
    requires s > 0.0
  {
    exists i: nat, j: nat ::
      i < Steps(b.minX, b.maxX, s) && j < Steps(b.minY, b.maxY, s) && c == Candidate(b, s, i, j)
  }

  /** `c` lies in the box shrunk by half a stride at the lower-left and
      strictly inside it at the upper-right. */
  predicate InShrunkBox(b: Box, s: real, c: Rect) {
    && b.minX + s / 2.0 <= c.x1 && c.x2 < b.maxX
    && b.minY + s / 2.0 <= c.y1 && c.y2 < b.maxY
  }

  /** The scan visits rows times columns candidates. */
  lemma {:induction false} GridPrefixLength(b: Box, s: real, m: nat)
    requires s > 0.0
    ensures |GridPrefix(b, s, m)| == m * Steps(b.minY, b.maxY, s)
  {
    if m > 0 {
      GridPrefixLength(b, s, m - 1);
    }
  }

  lemma CandidateCount(b: Box, s: real)
    requires s > 0.0
    ensures |Candidates(b, s)| == Steps(b.minX, b.maxX, s) * Steps(b.minY, b.maxY, s)
  {
    GridPrefixLength(b, s, Steps(b.minX, b.maxX, s));
  }

  /** Every candidate of a column prefix sits in that column, below row `n`. */
  lemma {:induction false} ColumnPrefixMembers(b: Box, s: real, i: nat, n: nat, c: Rect)
    requires c in ColumnPrefix(b, s, i, n)
    ensures exists j: nat :: j < n && c == Candidate(b, s, i, j)
  {
    if c != Candidate(b, s, i, n - 1) {
      ColumnPrefixMembers(b, s, i, n - 1, c);
    }
  }

  /** Every candidate of the first `m` columns is a grid position in them. */
  lemma {:induction false} GridPrefixMembers(b: Box, s: real, m: nat, c: Rect)
    requires s > 0.0
    requires c in GridPrefix(b, s, m)
    ensures exists i: nat, j: nat ::
      i < m && j < Steps(b.minY, b.maxY, s) && c == Candidate(b, s, i, j)
  {
    var ny := Steps(b.minY, b.maxY, s);
    if c in GridPrefix(b, s, m - 1) {
      GridPrefixMembers(b, s, m - 1, c);
    } else {
      ColumnPrefixMembers(b, s, m - 1, ny, c);
    }
  }

  /** Each grid position of the first `m` columns is visited. */
  lemma {:induction false} GridPrefixCovers(b: Box, s: real, m: nat, i: nat, j: nat)
    requires s > 0.0
    requires i < m && j < Steps(b.minY, b.maxY, s)
    ensures Candidate(b, s, i, j) in GridPrefix(b, s, m)
  {
    var ny := Steps(b.minY, b.maxY, s);
    if i < m - 1 {
      GridPrefixCovers(b, s, m - 1, i, j);
    } else {
      ColumnPrefixCovers(b, s, i, ny, j);
    }
  }

  lemma {:induction false} ColumnPrefixCovers(b: Box, s: real, i: nat, n: nat, j: nat)
    requires j < n
    ensures Candidate(b, s, i, j) in ColumnPrefix(b, s, i, n)
  {
    if j < n - 1 {
      ColumnPrefixCovers(b, s, i, n - 1, j);
    }
  }

  /** The candidates are exactly the grid positions the two guards admit. */
  lemma CandidatesAreGrid(b: Box, s: real, c: Rect)
    requires s > 0.0
    ensures c in Candidates(b, s) <==> OnGrid(b, s, c)
  {
    var nx, ny := Steps(b.minX, b.maxX, s), Steps(b.minY, b.maxY, s);
    if c in Candidates(b, s) {
      GridPrefixMembers(b, s, nx, c);
    }
    if OnGrid(b, s, c) {
      var i: nat, j: nat :| i < nx && j < ny && c == Candidate(b, s, i, j);
      GridPrefixCovers(b, s, nx, i, j);
    }
  }

  /** Every grid candidate is a square of side `s` inside the shrunken box. */
  lemma OnGridShape(b: Box, s: real, c: Rect)
    requires s > 0.0
    requires OnGrid(b, s, c)
    ensures IsSquare(c, s) && InShrunkBox(b, s, c)
  {
    var nx, ny := Steps(b.minX, b.maxX, s), Steps(b.minY, b.maxY, s);
    var i: nat, j: nat :| i < nx && j < ny && c == Candidate(b, s, i, j);
    assert Fits(b.minX, b.maxX, s, i) && Fits(b.minY, b.maxY, s, j);
    ScaleLess(0.0, i as real, s);
    ScaleLess(0.0, j as real, s);
  }

  /** The candidates come out column by column, bottom to top. */
  lemma {:induction false} ScanPrefixColumnMajor(b: Box, s: real, i: nat, j: nat)
    requires s > 0.0
    requires j <= Steps(b.minY, b.maxY, s)
    ensures ColumnMajor(ScanPrefix(b, s, i, j))
    decreases i, j
  {
    var ny := Steps(b.minY, b.maxY, s);
    if j == 0 {
      assert ScanPrefix(b, s, i, 0) == GridPrefix(b, s, i);
      if i > 0 {
        ScanPrefixColumnMajor(b, s, i - 1, ny);
      }
    } else {
      var rs := ScanPrefix(b, s, i, j - 1);
      var c := Candidate(b, s, i, j - 1);
      ScanPrefixColumnMajor(b, s, i, j - 1);
      forall p | 0 <= p < |rs|
        ensures Before(rs[p], c)
      {
        var r := rs[p];
        if r in GridPrefix(b, s, i) {
          GridPrefixMembers(b, s, i, r);
          var i': nat, j': nat :| i' < i && j' < ny && r == Candidate(b, s, i', j');
          CoordMonotone(b.minX, s, i', i);
        } else {
          assert r in ColumnPrefix(b, s, i, j - 1);
          ColumnPrefixMembers(b, s, i, j - 1, r);
          var j': nat :| j' < j - 1 && r == Candidate(b, s, i, j');
          CoordMonotone(b.minY, s, j', j - 1);
        }
      }
      ColumnMajorSnoc(rs, c);
      assert ScanPrefix(b, s, i, j) == rs + [c];
    }
  }

  lemma CandidatesColumnMajor(b: Box, s: real)
    requires s > 0.0
    ensures ColumnMajor(Candidates(b, s))
  {
    var nx := Steps(b.minX, b.maxX, s);
    ScanPrefixColumnMajor(b, s, nx, 0);
    assert ScanPrefix(b, s, nx, 0) == Candidates(b, s);
  }
}
