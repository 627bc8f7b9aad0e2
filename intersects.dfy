/** The two search adapters of geometry/Intersects.java: each routes a
    (geometry, circle) pair to the circle's own intersection test. */
module Intersects {
  import Zones
  import Points
  import Circles

  /** `rectangleIntersectsCircle` (Intersects.java:11-16). */
  predicate RectangleIntersectsCircle(z: Zones.Zone, c: Circles.Circle)
    requires |c.centre| == |z.lo| == |z.hi|
  {
    Circles.IntersectsZone(c, z)
  }

  /** `pointIntersectsCircle` (Intersects.java:18-23). */
  predicate PointIntersectsCircle(p: Points.Point, c: Circles.Circle)
    requires |c.centre| == |p.coord|
  {
    Circles.IntersectsPoint(c, p)
  }

  /** A zone reported by the rectangle adapter also meets the circle's mbr,
      so the tree's mbr descent finds it. */
  lemma RectangleAdapterWithinMbr(z: Zones.Zone, c: Circles.Circle)
    requires Circles.ValidCircle(c) && Zones.Valid(z) && |c.centre| == |z.lo|
    ensures RectangleIntersectsCircle(z, c) ==> Zones.Intersects(Circles.Mbr(c), z)
  {
    if RectangleIntersectsCircle(z, c) {
      Circles.IntersectsZoneImpliesMbrIntersects(c, z);
    }
  }

  /** The point adapter agrees with the rectangle adapter on the point's
      degenerate mbr. */
  lemma AdaptersAgreeOnPoints(p: Points.Point, c: Circles.Circle)
    requires Circles.ValidCircle(c) && |c.centre| == |p.coord|
    ensures PointIntersectsCircle(p, c) <==> RectangleIntersectsCircle(Points.Mbr(p), c)
  {
    Points.DistanceSquaredIsMbrDistance(Points.Point(c.centre), p);
  }

  /** threed/IntersectsTest: the degenerate zone at the origin meets the unit
      circle at the origin and misses the unit circle at (100,100,100);
      RTreeTest.java:814-828: the point (0,0) meets circle((0,0),1) and (10,10)
      does not. */
  lemma AdapterExamples()
    ensures RectangleIntersectsCircle(Zones.Zone([0, 0, 0], [0, 0, 0]), Circles.Circle([0, 0, 0], 1))
    ensures !RectangleIntersectsCircle(Zones.Zone([0, 0, 0], [0, 0, 0]), Circles.Circle([100, 100, 100], 1))
    ensures PointIntersectsCircle(Points.Point([0, 0]), Circles.Circle([0, 0], 1))
    ensures !PointIntersectsCircle(Points.Point([10, 10]), Circles.Circle([0, 0], 1))
  {
    var o := Zones.Zone([0, 0, 0], [0, 0, 0]);
    assert Zones.SqGapSum(o, o, 2) == 0;
    var f := Zones.Zone([100, 100, 100], [100, 100, 100]);
    assert Zones.SqGapSum(f, o, 2) == 20000;
    assert Points.SqDiffSum([0, 0], [0, 0], 1) == 0;
    assert Points.SqDiffSum([0, 0], [10, 10], 1) == 100;
  }
}
