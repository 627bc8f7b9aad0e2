/** A point (geometry/Point.java): a degenerate zone whose two corners are
    both the point's coordinates.

    Point.java is half-migrated to n dimensions: `create(double, double)`
    (lines 15-16) calls a two-argument constructor that no longer exists, and
    `distanceSquared` (lines 33-37) reads only the x and y axes through
    accessors the n-dimensional Zone lacks. The model takes the n-dimensional
    meaning asserted by the 3-D tests: the sum over every axis. */
module Points {
  import opened Wrappers
  import opened Zones

  datatype Point = Point(coord: seq<int>)

  /** The constructor (Point.java:11-13) builds its mbr with Zone.create, which
      rejects an empty coordinate vector. */
  method Create(coord: seq<int>) returns (r: Result<Point>)
    ensures r.Ok? <==> |coord| != 0
    ensures r.Ok? ==> r.value == Point(coord) && Valid(Mbr(r.value))
    ensures r.Err? ==> r.error == IllegalArgument
  {
    var z := Zones.Create(coord, coord);
    if z.Err? {
      return Err(z.error);
    }
    return Ok(Point(coord));
  }

  /** `mbr` (Point.java:11-13, 19-22): the degenerate zone at the point. */
  function Mbr(p: Point): Zone {
    Zone(p.coord, p.coord)
  }

  /** A point's mbr is a valid zone whose lows and highs are both the point. */
  lemma MbrIsDegenerate(p: Point)
    requires |p.coord| != 0
    ensures Valid(Mbr(p)) && Mbr(p).lo == Mbr(p).hi == p.coord
    ensures ContainsPoint(Mbr(p), p.coord)
  {
  }

  /** The sum of the squared coordinate differences on the first n axes. */
  function SqDiffSum(a: seq<int>, b: seq<int>, n: nat): int
    requires n <= |a| && n <= |b|
  {
    if n == 0 then 0 else SqDiffSum(a, b, n - 1) + (a[n - 1] - b[n - 1]) * (a[n - 1] - b[n - 1])
  }

  /** `distanceSquared` (Point.java:33-37), over every axis. */
  function DistanceSquared(p: Point, q: Point): int
    requires |p.coord| == |q.coord|
  {
    SqDiffSum(p.coord, q.coord, |p.coord|)
  }

  lemma {:induction false} SqDiffSumSymmetric(a: seq<int>, b: seq<int>, n: nat)
    requires n <= |a| && n <= |b|
    ensures SqDiffSum(a, b, n) == SqDiffSum(b, a, n)
  {
    if n > 0 {
      SqDiffSumSymmetric(a, b, n - 1);
      assert (a[n - 1] - b[n - 1]) * (a[n - 1] - b[n - 1]) == (b[n - 1] - a[n - 1]) * (b[n - 1] - a[n - 1]);
    }
  }

  lemma {:induction false} SqDiffSumZero(a: seq<int>, b: seq<int>, n: nat)
    requires n <= |a| && n <= |b|
    ensures SqDiffSum(a, b, n) >= 0
    ensures SqDiffSum(a, b, n) == 0 <==> forall i :: 0 <= i < n ==> a[i] == b[i]
  {
    if n > 0 {
      SqDiffSumZero(a, b, n - 1);
      var d := a[n - 1] - b[n - 1];
      if d != 0 {
        assert d * d > 0;
      }
    }
  }

  /** The squared distance is symmetric, never negative, and 0 exactly when
      the two points have the same coordinates. */
  lemma DistanceSquaredProperties(p: Point, q: Point)
    requires |p.coord| == |q.coord|
    ensures DistanceSquared(p, q) == DistanceSquared(q, p)
    ensures DistanceSquared(p, q) >= 0
    ensures DistanceSquared(p, q) == 0 <==> p == q
  {
    SqDiffSumSymmetric(p.coord, q.coord, |p.coord|);
    SqDiffSumZero(p.coord, q.coord, |p.coord|);
    if forall i :: 0 <= i < |p.coord| ==> p.coord[i] == q.coord[i] {
      assert p.coord == q.coord;
    }
  }

  lemma {:induction false} SqDiffSumIsSqGapSum(p: Point, q: Point, n: nat)
    requires |p.coord| == |q.coord| && n <= |p.coord|
    ensures SqDiffSum(p.coord, q.coord, n) == SqGapSum(Mbr(p), Mbr(q), n)
  {
    if n > 0 {
      SqDiffSumIsSqGapSum(p, q, n - 1);
      var d := p.coord[n - 1] - q.coord[n - 1];
      var g := Gap(Mbr(p), Mbr(q), n - 1);
      assert g == d || g == -d;
      assert g * g == d * d;
    }
  }

  /** The point-to-point squared distance is the zone distance between the
      two points' mbrs. */
  lemma DistanceSquaredIsMbrDistance(p: Point, q: Point)
    requires |p.coord| == |q.coord|
    ensures SameDim(Mbr(p), Mbr(q))
    ensures DistanceSquared(p, q) == SqDistance(Mbr(p), Mbr(q))
  {
    SqDiffSumIsSqGapSum(p, q, |p.coord|);
  }

  /** PointTest.testDistanceToPoint and the 3-D PointTest: (1,2) to (4,6) is 5,
      (1,1,3) to (1,1,8) is 5, (1,0,3) to (1,3,7) is 5. */
  lemma DistanceSquaredExamples()
    ensures DistanceSquared(Point([1, 2]), Point([4, 6])) == 25
    ensures DistanceSquared(Point([1, 1, 3]), Point([1, 1, 8])) == 25
    ensures DistanceSquared(Point([1, 0, 3]), Point([1, 3, 7])) == 25
  {
    assert SqDiffSum([1, 2], [4, 6], 1) == 9;
    assert SqDiffSum([1, 1, 3], [1, 1, 8], 2) == 0;
    assert SqDiffSum([1, 0, 3], [1, 3, 7], 2) == 9;
  }

  /** The square of `distance(Zone)` (Point.java:24-27): the distance from the
      point's mbr to the zone. */
  function SqDistanceToZone(p: Point, z: Zone): int
    requires SameDim(Mbr(p), z)
  {
    SqDistance(Mbr(p), z)
  }

  /** `intersects(Zone)` (Point.java:39-42): the point's mbr meets the zone. */
  predicate IntersectsZone(p: Point, z: Zone)
    requires SameDim(Mbr(p), z)
  {
    Intersects(Mbr(p), z)
  }

  /** A point meets a zone exactly when the zone contains it, and that is when
      the point's distance to the zone is 0. */
  lemma IntersectsZoneIffContains(p: Point, z: Zone)
    requires Valid(z) && SameDim(Mbr(p), z)
    ensures IntersectsZone(p, z) <==> ContainsPoint(z, p.coord)
    ensures SqDistanceToZone(p, z) >= 0
    ensures SqDistanceToZone(p, z) == 0 <==> ContainsPoint(z, p.coord)
  {
    SqDistanceZeroIffIntersects(Mbr(p), z);
    assert forall i :: 0 <= i < |p.coord| ==>
      (Max(p.coord[i], z.lo[i]) <= Min(p.coord[i], z.hi[i]) <==> z.lo[i] <= p.coord[i] <= z.hi[i]);
  }

  /** PointTest.testPointIntersectsItself: the distance to its own mbr is 0;
      PointTest.testIntersectIsFalseWhenPointsDiffer: any coordinate
      difference makes the distance to the other point's mbr positive. */
  lemma DistanceToMbr(p: Point, q: Point)
    requires |p.coord| != 0 && |p.coord| == |q.coord|
    ensures SqDistanceToZone(p, Mbr(p)) == 0
    ensures SqDistanceToZone(p, Mbr(q)) > 0 <==> p != q
  {
    IntersectsZoneIffContains(p, Mbr(p));
    IntersectsZoneIffContains(p, Mbr(q));
    if ContainsPoint(Mbr(q), p.coord) {
      assert p.coord == q.coord;
    }
  }

  /** PointTest.testDistanceToRectangle and the 3-D PointTest.testDistanceToCuboid:
      (1,2) to the zone (4,6)-(4,6), (1,1,3) to (0,0,8)-(4,6,9) and (1,0,3) to
      (0,3,7)-(4,6,9) are all at distance 5. */
  lemma SqDistanceToZoneExamples()
    ensures SqDistanceToZone(Point([1, 2]), Zone([4, 6], [4, 6])) == 25
    ensures SqDistanceToZone(Point([1, 1, 3]), Zone([0, 0, 8], [4, 6, 9])) == 25
    ensures SqDistanceToZone(Point([1, 0, 3]), Zone([0, 3, 7], [4, 6, 9])) == 25
  {
    var p := Point([1, 2]);
    var z := Zone([4, 6], [4, 6]);
    assert Gap(Mbr(p), z, 0) == 3 && Gap(Mbr(p), z, 1) == 4;
    assert SqGapSum(Mbr(p), z, 1) == 9;
    var p3 := Point([1, 1, 3]);
    var z3 := Zone([0, 0, 8], [4, 6, 9]);
    assert Gap(Mbr(p3), z3, 0) == 0 && Gap(Mbr(p3), z3, 1) == 0 && Gap(Mbr(p3), z3, 2) == 5;
    assert SqGapSum(Mbr(p3), z3, 2) == 0;
    var q3 := Point([1, 0, 3]);
    var w3 := Zone([0, 3, 7], [4, 6, 9]);
    assert Gap(Mbr(q3), w3, 0) == 0 && Gap(Mbr(q3), w3, 1) == 3 && Gap(Mbr(q3), w3, 2) == 4;
    assert SqGapSum(Mbr(q3), w3, 2) == 9;
  }

  /** `equals` (Point.java:57-64) compares the mbrs; with per-coordinate zone
      equality, two points are equal exactly when their coordinates are. */
  lemma EqualityIsMbrEquality(p: Point, q: Point)
    ensures Mbr(p) == Mbr(q) <==> p == q
  {
    if Mbr(p) == Mbr(q) {
      assert p.coord == Mbr(p).lo == Mbr(q).lo == q.coord;
    }
  }
}
