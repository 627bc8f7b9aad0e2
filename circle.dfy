/** A circle (geometry/Circle.java): a centre and a radius, with the box
    centre +/- radius on every axis as its mbr.

    Circle.java is still two-dimensional (fields x and y, and a four-argument
    Zone.create at line 16 that the n-dimensional Zone no longer has); the
    model takes the n-dimensional meaning the tests use: a centre vector.
    Distances are squared: `distance(r) == 0`, `Math.sqrt(s) <= radius` and
    `distance(r) <= t` become `s <= radius * radius` and
    `s <= (radius + t) * (radius + t)`, which agree with the square-root
    forms because the radius is never negative. */
module Circles {
  import opened Wrappers
  import opened Zones
  import Points

  datatype Circle = Circle(centre: seq<int>, radius: int)

  /** What construction guarantees: the mbr built at Circle.java:16 passes the
      Zone constructor's checks. */
  predicate ValidCircle(c: Circle) {
    |c.centre| != 0 && c.radius >= 0
  }

  /** `mbr` (Circle.java:12-17, 31-34): centre - radius to centre + radius on
      each axis. */
  function Mbr(c: Circle): Zone {
    Zone(seq(|c.centre|, i requires 0 <= i < |c.centre| => c.centre[i] - c.radius),
         seq(|c.centre|, i requires 0 <= i < |c.centre| => c.centre[i] + c.radius))
  }

  /** The constructor builds the mbr with the validating Zone constructor: an
      empty centre or a negative radius is rejected. */
  method Create(centre: seq<int>, radius: int) returns (r: Result<Circle>)
    ensures r.Ok? <==> |centre| != 0 && radius >= 0
    ensures r.Ok? ==> r.value == Circle(centre, radius) && Valid(Mbr(r.value))
    ensures r.Err? ==> r.error == IllegalArgument
  {
    var box := Mbr(Circle(centre, radius));
    if |centre| != 0 && radius < 0 {
      assert box.lo[0] > box.hi[0];
    }
    var z := Zones.Create(box.lo, box.hi);
    if z.Err? {
      return Err(z.error);
    }
    return Ok(Circle(centre, radius));
  }

  /** CircleTest.testMbr: circle((1,2),3) has the mbr (-2,-1)-(4,5). */
  lemma MbrExample()
    ensures Mbr(Circle([1, 2], 3)) == Zone([-2, -1], [4, 5])
  {
    assert Mbr(Circle([1, 2], 3)).lo == [-2, -1];
    assert Mbr(Circle([1, 2], 3)).hi == [4, 5];
  }

  /** The squared distance from the centre to a zone. */
  function SqCentreDistance(c: Circle, z: Zone): int
    requires |c.centre| == |z.lo| == |z.hi|
  {
    Points.SqDistanceToZone(Points.Point(c.centre), z)
  }

  /** `intersects(Zone)` (Circle.java:41-44): `distance(r) == 0`, that is the
      zone lies within the radius of the centre. */
  predicate IntersectsZone(c: Circle, z: Zone)
    requires |c.centre| == |z.lo| == |z.hi|
  {
    SqCentreDistance(c, z) <= c.radius * c.radius
  }

  /** `distance(r) <= t` for `distance` of Circle.java:36-39,
      max(0, dist(centre, r) - radius). */
  predicate WithinDistance(c: Circle, z: Zone, t: int)
    requires |c.centre| == |z.lo| == |z.hi|
  {
    SqCentreDistance(c, z) <= (c.radius + t) * (c.radius + t)
  }

  /** When `e` is the centre's distance to the zone, the source's distance
      max(0, e - radius) is never negative, is 0 exactly when the circle
      intersects the zone, and is at most t exactly when the zone is within
      distance t. */
  lemma DistanceMatchesSquaredForm(c: Circle, z: Zone, e: int, t: int)
    requires ValidCircle(c) && |c.centre| == |z.lo| == |z.hi|
    requires e >= 0 && e * e == SqCentreDistance(c, z) && t >= 0
    ensures Max(0, e - c.radius) >= 0
    ensures Max(0, e - c.radius) == 0 <==> IntersectsZone(c, z)
    ensures Max(0, e - c.radius) <= t <==> WithinDistance(c, z, t)
  {
    SquareMonotone(e, c.radius);
    SquareMonotone(e, c.radius + t);
  }

  /** For non-negative numbers, comparing squares compares the numbers. */
  lemma SquareMonotone(x: int, y: int)
    requires x >= 0 && y >= 0
    ensures x <= y <==> x * x <= y * y
  {
    if x <= y {
      MulMonotone(x, x, y, y);
    } else {
      assert y + 1 <= x;
      MulMonotone(y + 1, y + 1, x, x);
    }
  }


  /** A larger distance bound admits every zone a smaller one does, and the
      bound 0 is the intersection test. */
  lemma WithinDistanceMonotone(c: Circle, z: Zone, t1: int, t2: int)
    requires ValidCircle(c) && |c.centre| == |z.lo| == |z.hi| && 0 <= t1 <= t2
    ensures WithinDistance(c, z, 0) == IntersectsZone(c, z)
    ensures WithinDistance(c, z, t1) ==> WithinDistance(c, z, t2)
  {
    MulMonotone(c.radius + t1, c.radius + t1, c.radius + t2, c.radius + t2);
  }

  /** A zone the circle meets also meets the circle's mbr, so a search that
      descends by mbrs loses no circle match. */
  lemma IntersectsZoneImpliesMbrIntersects(c: Circle, z: Zone)
    requires ValidCircle(c) && Valid(z) && |c.centre| == |z.lo|
    requires IntersectsZone(c, z)
    ensures SameDim(Mbr(c), z) && Intersects(Mbr(c), z)
  {
    var p := Points.Point(c.centre);
    var m := Mbr(c);
    forall i | 0 <= i < |c.centre|
      ensures Max(m.lo[i], z.lo[i]) <= Min(m.hi[i], z.hi[i])
    {
      GapAtMostDistance(Points.Mbr(p), z, i);
      var g := Gap(Points.Mbr(p), z, i);
      SquareMonotone(g, c.radius);
    }
  }

  /** The circle tests of CircleTest.java:75-101 with whole-number zones. */
  lemma IntersectsZoneExamples()
    ensures IntersectsZone(Circle([0, 0], 1), Zone([0, 1], [0, 1]))
    ensures !IntersectsZone(Circle([0, 0], 1), Zone([1, 1], [1, 1]))
    ensures !IntersectsZone(Circle([0, 0], 1), Zone([1, 1], [2, 2]))
    ensures IntersectsZone(Circle([0, 0], 1), Zone([0, 0], [1, 1]))
    ensures !IntersectsZone(Circle([0, 0], 1), Zone([10, 10], [11, 11]))
  {
    var p := Points.Mbr(Points.Point([0, 0]));
    assert SqGapSum(p, Zone([0, 1], [0, 1]), 1) == 0;
    assert SqGapSum(p, Zone([1, 1], [1, 1]), 1) == 1;
    assert SqGapSum(p, Zone([1, 1], [2, 2]), 1) == 1;
    assert SqGapSum(p, Zone([0, 0], [1, 1]), 1) == 0;
    assert SqGapSum(p, Zone([10, 10], [11, 11]), 1) == 100;
  }

  /** `intersects(Circle)` (Circle.java:46-49): the squared centre distance is
      at most the square of the summed radii. */
  predicate IntersectsCircle(c: Circle, d: Circle)
    requires |c.centre| == |d.centre|
  {
    Points.DistanceSquared(Points.Point(c.centre), Points.Point(d.centre))
      <= (c.radius + d.radius) * (c.radius + d.radius)
  }

  /** Circle intersection is symmetric, every valid circle meets itself, and
      circle((0,0),1) misses circle((100,100),1) (CircleTest.testDoNotIntersect). */
  lemma IntersectsCircleProperties(c: Circle, d: Circle)
    requires |c.centre| == |d.centre|
    ensures IntersectsCircle(c, d) == IntersectsCircle(d, c)
    ensures IntersectsCircle(c, c)
    ensures !IntersectsCircle(Circle([0, 0], 1), Circle([100, 100], 1))
  {
    Points.DistanceSquaredProperties(Points.Point(c.centre), Points.Point(d.centre));
    Points.DistanceSquaredProperties(Points.Point(c.centre), Points.Point(c.centre));
    assert Points.SqDiffSum([0, 0], [100, 100], 1) == 10000;
  }

  /** `intersects(Point)` (Circle.java:66-68): the point is within the radius
      of the centre. */
  predicate IntersectsPoint(c: Circle, p: Points.Point)
    requires |c.centre| == |p.coord|
  {
    Points.DistanceSquared(Points.Point(c.centre), p) <= c.radius * c.radius
  }

  /** A circle meets a point exactly when it meets the point's mbr. */
  lemma IntersectsPointIffMbr(c: Circle, p: Points.Point)
    requires ValidCircle(c) && |c.centre| == |p.coord|
    ensures IntersectsPoint(c, p) <==> IntersectsZone(c, Points.Mbr(p))
  {
    Points.DistanceSquaredIsMbrDistance(Points.Point(c.centre), p);
  }

  /** With `e` the centre-to-point distance, a circle meets a point exactly
      when `e <= radius`. */
  lemma IntersectsPointWithinRadius(c: Circle, p: Points.Point, e: int)
    requires ValidCircle(c) && |c.centre| == |p.coord|
    requires e >= 0 && e * e == Points.DistanceSquared(Points.Point(c.centre), p)
    ensures IntersectsPoint(c, p) <==> e <= c.radius
  {
    SquareMonotone(e, c.radius);
  }

  /** CircleTest.testIntersectsPoint and testDoesNotIntersectPoint. */
  lemma IntersectsPointExamples()
    ensures IntersectsPoint(Circle([0, 0], 1), Points.Point([0, 0]))
    ensures !IntersectsPoint(Circle([0, 0], 1), Points.Point([100, 100]))
  {
    assert Points.SqDiffSum([0, 0], [0, 0], 1) == 0;
    assert Points.SqDiffSum([0, 0], [100, 100], 1) == 10000;
  }
}
