/** The filter step of the scan: a candidate is kept exactly when the
    containment primitive reports it lies within the region. The primitive
    belongs to an outside geometry library, so it enters as a parameter. */
module Containment {
  import opened Geometry

  /** "Is this rectangle completely within that polygon?" */
  type Within = (Rect, Polygon) -> bool

  /** The candidates `within` accepts against `region`, in their original order. */
  function Kept(within: Within, region: Polygon, cs: seq<Rect>): (ks: seq<Rect>)
    ensures |ks| <= |cs|
  {
    if cs == [] then []
    else
      var last := cs[|cs| - 1];
      Kept(within, region, cs[..|cs| - 1]) + (if within(last, region) then [last] else [])
  }

  /** Filtering a list with one more candidate at the end. */
  lemma KeptSnoc(within: Within, region: Polygon, cs: seq<Rect>, c: Rect)
    ensures Kept(within, region, cs + [c])
         == Kept(within, region, cs) + (if within(c, region) then [c] else [])
  {
    assert (cs + [c])[..|cs|] == cs;
  }

  /** A rectangle is kept exactly when it is a candidate and is accepted:
      nothing rejected is ever kept and nothing accepted is dropped. */
  lemma {:induction false} KeptIff(within: Within, region: Polygon, cs: seq<Rect>, r: Rect)
    ensures r in Kept(within, region, cs) <==> r in cs && within(r, region)
  {
    if cs != [] {
      var init := cs[..|cs| - 1];
      KeptIff(within, region, init, r);
      assert cs == init + [cs[|cs| - 1]];
    }
  }

  /** Every kept rectangle satisfies the containment primitive. */
  lemma {:induction false} KeptAllWithin(within: Within, region: Polygon, cs: seq<Rect>)
    ensures forall r :: r in Kept(within, region, cs) ==> within(r, region)
  {
    forall r | r in Kept(within, region, cs)
      ensures within(r, region)
    {
      KeptIff(within, region, cs, r);
    }
  }

  /** Filtering never reorders: a column-major list stays column-major. */
  lemma {:induction false} KeptColumnMajor(within: Within, region: Polygon, cs: seq<Rect>)
    requires ColumnMajor(cs)
    ensures ColumnMajor(Kept(within, region, cs))
  {
    if cs != [] {
      var init, last := cs[..|cs| - 1], cs[|cs| - 1];
      assert ColumnMajor(init);
      KeptColumnMajor(within, region, init);
      if within(last, region) {
        var ks := Kept(within, region, init);
        forall p | 0 <= p < |ks|
          ensures Before(ks[p], last)
        {
          KeptIff(within, region, init, ks[p]);
          var q :| 0 <= q < |init| && init[q] == ks[p];
        }
        ColumnMajorSnoc(ks, last);
      }
    }
  }
}
