/** The n-dimensional axis-aligned box (geometry/Zone.java).

    A zone is its two corner vectors: `lo` (coord1 in the source) and `hi`
    (coord2). Coordinates are exact ints instead of Java floats, and the
    Euclidean distance is modelled by its square.

    Zone.java is half-migrated from two dimensions to n: `intersects`,
    `distance`, `intersectionArea` and `perimeter` still call the 2-D accessors
    x1()/y1()/x2()/y2(), which the n-dimensional class no longer has, and
    `distance` holds a stray `assert` (line 109), so none of them compiles.
    This module gives them the per-axis meaning that the 3-D tests assert.
*/
module Zones {
  import opened Wrappers

  datatype Zone = Zone(lo: seq<int>, hi: seq<int>)

  function Dim(z: Zone): nat { |z.lo| }

  /** What the constructor checks (Zone.java:12-21): both vectors non-empty,
      of one length, and lo <= hi on every axis. Every Zone object of the
      source satisfies it, so operations on zones require it. */
  predicate Valid(z: Zone) {
    |z.lo| != 0 && |z.lo| == |z.hi| && forall i :: 0 <= i < |z.lo| ==> z.lo[i] <= z.hi[i]
  }

  /** Both zones have the same number of axes (with consistent corners). */
  predicate SameDim(a: Zone, b: Zone) {
    |a.lo| == |a.hi| == |b.lo| == |b.hi|
  }

  /** Every zone in `zs` is valid and has `zs[0]`'s dimension: what a tree of
      fixed dimension guarantees of a node's children. */
  predicate Uniform(zs: seq<Zone>) {
    forall k :: 0 <= k < |zs| ==> Valid(zs[k]) && |zs[k].lo| == |zs[0].lo|
  }

  function Min(x: int, y: int): int { if x <= y then x else y }

  function Max(x: int, y: int): int { if x >= y then x else y }

  // ---------------------------------------------------------------------------
  // Construction

  /** The constructor's validation loop (Zone.java:12-21). */
  method Create(coord1: seq<int>, coord2: seq<int>) returns (r: Result<Zone>)
    ensures r.Ok? <==> Valid(Zone(coord1, coord2))
    ensures r.Ok? ==> r.value == Zone(coord1, coord2)
    ensures r.Err? ==> r.error == IllegalArgument
  {
    if |coord1| == 0 || |coord1| != |coord2| {
      return Err(IllegalArgument);
    }
    var i := 0;
    while i < |coord1|
      invariant 0 <= i <= |coord1|
      invariant forall k :: 0 <= k < i ==> coord1[k] <= coord2[k]
    {
      if coord2[i] < coord1[i] {
        return Err(IllegalArgument);
      }
      i := i + 1;
    }
    return Ok(Zone(coord1, coord2));
  }

  // ---------------------------------------------------------------------------
  // Content (area in two dimensions, volume in three)

  function Extent(z: Zone, i: nat): int
    requires i < |z.lo| && i < |z.hi|
  {
    z.hi[i] - z.lo[i]
  }

  /** The product of the extents of the first n axes. */
  function ExtentProduct(z: Zone, n: nat): int
    requires n <= |z.lo| && n <= |z.hi|
  {
    if n == 0 then 1 else ExtentProduct(z, n - 1) * Extent(z, n - 1)
  }

  function ContentOf(z: Zone): int
    requires |z.lo| == |z.hi|
  {
    ExtentProduct(z, |z.lo|)
  }

  lemma MulNonNegative(x: int, y: int)
    requires 0 <= x && 0 <= y
    ensures 0 <= x * y
  {
  }

  lemma MulMonotone(x: int, y: int, u: int, v: int)
    requires 0 <= x <= u && 0 <= y <= v
    ensures x * y <= u * v
  {
    assert x * y <= u * y;
    assert u * y <= u * v;
  }

  lemma {:induction false} ExtentProductNonNegative(z: Zone, n: nat)
    requires Valid(z) && n <= |z.lo|
    ensures ExtentProduct(z, n) >= 0
  {
    if n > 0 {
      ExtentProductNonNegative(z, n - 1);
      MulNonNegative(ExtentProduct(z, n - 1), Extent(z, n - 1));
    }
  }

  /** The content of a valid zone is never negative. */
  lemma ContentNonNegative(z: Zone)
    requires Valid(z)
    ensures ContentOf(z) >= 0
  {
    ExtentProductNonNegative(z, |z.lo|);
  }

  /** `content()` (Zone.java:45-51): the loop multiplying the extents. */
  method Content(z: Zone) returns (c: int)
    requires Valid(z)
    ensures c == ContentOf(z)
    ensures c >= 0
  {
    c := 1;
    for i := 0 to |z.lo|
      invariant c == ExtentProduct(z, i)
    {
      c := c * (z.hi[i] - z.lo[i]);
    }
    ContentNonNegative(z);
  }

  // ---------------------------------------------------------------------------
  // Containment of one zone in another, union

  /** Zone `a` lies inside zone `b` on every axis. */
  predicate Within(a: Zone, b: Zone)
    requires SameDim(a, b)
  {
    forall i :: 0 <= i < |a.lo| ==> b.lo[i] <= a.lo[i] && a.hi[i] <= b.hi[i]
  }

  lemma {:induction false} ExtentProductMonotone(a: Zone, b: Zone, n: nat)
    requires Valid(a) && Valid(b) && SameDim(a, b) && Within(a, b) && n <= |a.lo|
    ensures ExtentProduct(a, n) <= ExtentProduct(b, n)
  {
    if n > 0 {
      ExtentProductMonotone(a, b, n - 1);
      ExtentProductNonNegative(a, n - 1);
      MulMonotone(ExtentProduct(a, n - 1), Extent(a, n - 1), ExtentProduct(b, n - 1), Extent(b, n - 1));
    }
  }

  /** A zone inside another has no greater content. */
  lemma ContentMonotone(a: Zone, b: Zone)
    requires Valid(a) && Valid(b) && SameDim(a, b) && Within(a, b)
    ensures ContentOf(a) <= ContentOf(b)
  {
    ExtentProductMonotone(a, b, |a.lo|);
  }

  /** The box that `add` builds: per-axis min of the lows, max of the highs. */
  function Union(a: Zone, b: Zone): Zone
    requires SameDim(a, b)
  {
    Zone(seq(|a.lo|, i requires 0 <= i < |a.lo| => Min(a.lo[i], b.lo[i])),
         seq(|a.lo|, i requires 0 <= i < |a.lo| => Max(a.hi[i], b.hi[i])))
  }

  /** The union is a valid zone of the same dimension containing both operands. */
  lemma UnionContainsBoth(a: Zone, b: Zone)
    requires Valid(a) && Valid(b) && SameDim(a, b)
    ensures Valid(Union(a, b)) && SameDim(a, Union(a, b))
    ensures Within(a, Union(a, b)) && Within(b, Union(a, b))
  {
  }

  /** The union is the least zone containing both operands. */
  lemma UnionIsLeast(a: Zone, b: Zone, c: Zone)
    requires SameDim(a, b) && SameDim(a, c)
    requires Within(a, c) && Within(b, c)
    ensures SameDim(Union(a, b), c) && Within(Union(a, b), c)
  {
  }

  lemma UnionCommutative(a: Zone, b: Zone)
    requires SameDim(a, b)
    ensures Union(a, b) == Union(b, a)
  {
    assert Union(a, b).lo == Union(b, a).lo;
    assert Union(a, b).hi == Union(b, a).hi;
  }

  lemma UnionIdempotent(z: Zone)
    requires |z.lo| == |z.hi|
    ensures Union(z, z) == z
  {
    assert Union(z, z).lo == z.lo;
    assert Union(z, z).hi == z.hi;
  }

  /** A zone added to a zone containing it leaves the container unchanged. */
  lemma UnionAbsorbs(a: Zone, b: Zone)
    requires SameDim(a, b) && Within(b, a)
    ensures Union(a, b) == a
  {
    assert Union(a, b).lo == a.lo;
    assert Union(a, b).hi == a.hi;
  }

  /** `add` (Zone.java:53-65): fills the `mins`/`maxs` arrays axis by axis and
      builds the result with the validating constructor. Operands of
      different dimension are rejected. */
  method Add(a: Zone, b: Zone) returns (r: Result<Zone>)
    requires Valid(a) && Valid(b)
    ensures r.Ok? <==> Dim(a) == Dim(b)
    ensures r.Err? ==> r.error == IllegalArgument
    ensures r.Ok? ==> SameDim(a, b) && r.value == Union(a, b) && Valid(r.value)
  {
    if |a.lo| != |b.lo| {
      return Err(IllegalArgument);
    }
    var d := |a.lo|;
    var mins := new int[d];
    var maxs := new int[d];
    for i := 0 to d
      invariant forall k :: 0 <= k < i ==> mins[k] == Min(a.lo[k], b.lo[k])
      invariant forall k :: 0 <= k < i ==> maxs[k] == Max(a.hi[k], b.hi[k])
    {
      mins[i] := Min(a.lo[i], b.lo[i]);
      maxs[i] := Max(a.hi[i], b.hi[i]);
    }
    assert mins[..] == Union(a, b).lo;
    assert maxs[..] == Union(a, b).hi;
    UnionContainsBoth(a, b);
    r := Create(mins[..], maxs[..]);
  }

  // ---------------------------------------------------------------------------
  // Point containment

  /** The meaning CuboidTest's containment tests assert (CuboidTest.java:164-204):
      lo[i] <= p[i] <= hi[i] on every axis. */
  predicate ContainsPoint(z: Zone, p: seq<int>)
    requires |z.lo| == |z.hi| == |p|
  {
    forall i :: 0 <= i < |p| ==> z.lo[i] <= p[i] <= z.hi[i]
  }

  /** `contains` as written at Zone.java:77: the flag is cleared when
      coord1[i] < p[i] or coord2[i] > p[i], the reverse of the intended test. */
  predicate ContainsAsWritten(z: Zone, p: seq<int>)
    requires |z.lo| == |z.hi| == |p|
  {
    forall i :: 0 <= i < |p| ==> !(z.lo[i] < p[i] || z.hi[i] > p[i])
  }

  /** As written, a valid zone "contains" a point only when the zone is that
      single point. */
  lemma ContainsAsWrittenOnlyDegenerate(z: Zone, p: seq<int>)
    requires Valid(z) && |p| == Dim(z) && ContainsAsWritten(z, p)
    ensures z.lo == p && z.hi == p
  {
    assert forall i :: 0 <= i < |p| ==> z.lo[i] == p[i] && z.hi[i] == p[i];
  }

  /** CuboidTest.testContains: zone (10,20,10)-(30,40,30) holds (20,30,20), which
      the comparison as written rejects. */
  lemma ContainsAsWrittenCounterexample()
    ensures ContainsPoint(Zone([10, 20, 10], [30, 40, 30]), [20, 30, 20])
    ensures !ContainsAsWritten(Zone([10, 20, 10], [30, 40, 30]), [20, 30, 20])
  {
    var z := Zone([10, 20, 10], [30, 40, 30]);
    var p := [20, 30, 20];
    assert z.lo[0] < p[0];
  }

  /** `contains` (Zone.java:71-82) with the comparison corrected: a point of
      the wrong dimension is rejected, and the `contained` flag is cleared on
      any axis where the point falls outside [lo, hi]. */
  method Contains(z: Zone, p: seq<int>) returns (r: Result<bool>)
    requires Valid(z)
    ensures r.Ok? <==> |p| == Dim(z)
    ensures r.Err? ==> r.error == IllegalArgument
    ensures r.Ok? ==> (r.value <==> ContainsPoint(z, p))
  {
    if |p| != |z.lo| {
      return Err(IllegalArgument);
    }
    var contained := true;
    for i := 0 to |z.lo|
      invariant contained <==> forall k :: 0 <= k < i ==> z.lo[k] <= p[k] <= z.hi[k]
    {
      if p[i] < z.lo[i] || z.hi[i] < p[i] {
        contained := false;
      }
    }
    return Ok(contained);
  }

  // ---------------------------------------------------------------------------
  // Intersection

  /** Per-axis interval overlap on every axis (n-dimensional form of
      Zone.java:88-99). */
  predicate Intersects(a: Zone, b: Zone)
    requires SameDim(a, b)
  {
    forall i :: 0 <= i < |a.lo| ==> Max(a.lo[i], b.lo[i]) <= Min(a.hi[i], b.hi[i])
  }

  /** Two valid zones intersect iff they share a point; the test is symmetric. */
  lemma IntersectsIffCommonPoint(a: Zone, b: Zone)
    requires Valid(a) && Valid(b) && SameDim(a, b)
    ensures Intersects(a, b) == Intersects(b, a)
    ensures Intersects(a, b) <==> exists p :: |p| == Dim(a) && ContainsPoint(a, p) && ContainsPoint(b, p)
  {
    if Intersects(a, b) {
      var p := seq(|a.lo|, i requires 0 <= i < |a.lo| => Max(a.lo[i], b.lo[i]));
      assert ContainsPoint(a, p) && ContainsPoint(b, p);
    }
    if p :| |p| == Dim(a) && ContainsPoint(a, p) && ContainsPoint(b, p) {
      assert forall i :: 0 <= i < |a.lo| ==> a.lo[i] <= p[i] <= a.hi[i] && b.lo[i] <= p[i] <= b.hi[i];
    }
  }

  /** The test vectors of CuboidTest.java:140-162: overlapping zones and
      crossing bars (neither holds a corner of the other) intersect. */
  lemma IntersectsExamples()
    ensures Intersects(Zone([14, 14, 14], [86, 37, 37]), Zone([13, 23, 23], [50, 80, 50]))
    ensures Intersects(Zone([10, 10, 10], [50, 50, 50]), Zone([28, 4, 28], [34, 85, 34]))
    ensures Intersects(Zone([28, 4, 28], [34, 85, 34]), Zone([10, 10, 10], [50, 50, 50]))
  {
  }

  /** CuboidTest.java:140-162 continued: a zone and a zone nested inside it
      intersect, in either order. */
  lemma NestedIntersectsExamples()
    ensures Intersects(Zone([10, 10, 10], [50, 50, 50]), Zone([20, 20, 20], [40, 40, 40]))
    ensures Intersects(Zone([20, 20, 20], [40, 40, 40]), Zone([10, 10, 10], [50, 50, 50]))
  {
  }

  // ---------------------------------------------------------------------------
  // Distance (squared)

  /** The gap between the two zones' intervals on axis i; 0 when they overlap. */
  function Gap(a: Zone, b: Zone, i: nat): int
    requires i < |a.lo| && i < |a.hi| && i < |b.lo| && i < |b.hi|
  {
    Max(0, Max(b.lo[i] - a.hi[i], a.lo[i] - b.hi[i]))
  }

  /** The sum of the squared gaps on the first n axes. */
  function SqGapSum(a: Zone, b: Zone, n: nat): int
    requires n <= |a.lo| && n <= |a.hi| && n <= |b.lo| && n <= |b.hi|
  {
    if n == 0 then 0 else SqGapSum(a, b, n - 1) + Gap(a, b, n - 1) * Gap(a, b, n - 1)
  }

  /** The square of `distance` (Zone.java:105-122): the Euclidean norm of the
      per-axis gaps. */
  function SqDistance(a: Zone, b: Zone): int
    requires SameDim(a, b)
  {
    SqGapSum(a, b, |a.lo|)
  }

  lemma {:induction false} SqGapSumSymmetric(a: Zone, b: Zone, n: nat)
    requires SameDim(a, b) && n <= |a.lo|
    ensures SqGapSum(a, b, n) == SqGapSum(b, a, n)
  {
    if n > 0 {
      SqGapSumSymmetric(a, b, n - 1);
      assert Gap(a, b, n - 1) == Gap(b, a, n - 1);
    }
  }

  /** The distance is symmetric. */
  lemma SqDistanceSymmetric(a: Zone, b: Zone)
    requires SameDim(a, b)
    ensures SqDistance(a, b) == SqDistance(b, a)
  {
    SqGapSumSymmetric(a, b, |a.lo|);
  }

  lemma {:induction false} SqGapSumZero(a: Zone, b: Zone, n: nat)
    requires SameDim(a, b) && n <= |a.lo|
    ensures SqGapSum(a, b, n) >= 0
    ensures SqGapSum(a, b, n) == 0 <==> forall i :: 0 <= i < n ==> Gap(a, b, i) == 0
  {
    if n > 0 {
      SqGapSumZero(a, b, n - 1);
      var prev := SqGapSum(a, b, n - 1);
      assert prev >= 0;
      var g := Gap(a, b, n - 1);
      SquarePositive(g);
      assert SqGapSum(a, b, n) == prev + g * g;
      if g != 0 {
        assert SqGapSum(a, b, n) > 0;
      } else {
        assert SqGapSum(a, b, n) == prev;
      }
    }
  }

  /** The square of a non-negative number is positive unless the number is 0. */
  lemma SquarePositive(g: int)
    requires g >= 0
    ensures g != 0 ==> g * g > 0
    ensures g == 0 ==> g * g == 0
  {
  }

  /** The distance is never negative, and it is 0 exactly when the zones
      intersect. */
  lemma SqDistanceZeroIffIntersects(a: Zone, b: Zone)
    requires Valid(a) && Valid(b) && SameDim(a, b)
    ensures SqDistance(a, b) >= 0
    ensures SqDistance(a, b) == 0 <==> Intersects(a, b)
  {
    SqGapSumZero(a, b, |a.lo|);
    assert forall i :: 0 <= i < |a.lo| ==>
      (Gap(a, b, i) == 0 <==> Max(a.lo[i], b.lo[i]) <= Min(a.hi[i], b.hi[i]));
  }

  lemma {:induction false} GapAtMostSqGapSum(a: Zone, b: Zone, n: nat, i: nat)
    requires SameDim(a, b) && i < n <= |a.lo|
    ensures Gap(a, b, i) * Gap(a, b, i) <= SqGapSum(a, b, n)
  {
    SqGapSumZero(a, b, n - 1);
    var g := Gap(a, b, n - 1);
    SquarePositive(g);
    if i < n - 1 {
      GapAtMostSqGapSum(a, b, n - 1, i);
    }
  }

  /** No single axis's squared gap exceeds the squared distance. */
  lemma GapAtMostDistance(a: Zone, b: Zone, i: nat)
    requires SameDim(a, b) && i < |a.lo|
    ensures Gap(a, b, i) * Gap(a, b, i) <= SqDistance(a, b)
  {
    GapAtMostSqGapSum(a, b, |a.lo|, i);
  }

  /** CuboidTest.testDistanceWhenSeparatedByDiagonally: the gaps 1, 5 and 2 give
      a distance of the square root of 30 (RectangleTest: gaps 1 and 5 give
      the square root of 26). */
  lemma SqDistanceExamples()
    ensures SqDistance(Zone([0, 0, 0], [2, 1, 1]), Zone([3, 6, 3], [10, 8, 10])) == 30
    ensures SqDistance(Zone([0, 0], [2, 1]), Zone([3, 6], [10, 8])) == 26
  {
    var a := Zone([0, 0, 0], [2, 1, 1]);
    var b := Zone([3, 6, 3], [10, 8, 10]);
    assert Gap(a, b, 0) == 1 && Gap(a, b, 1) == 5 && Gap(a, b, 2) == 2;
    assert SqGapSum(a, b, 2) == 26;
    var a2 := Zone([0, 0], [2, 1]);
    var b2 := Zone([3, 6], [10, 8]);
    assert Gap(a2, b2, 0) == 1 && Gap(a2, b2, 1) == 5;
    assert SqGapSum(a2, b2, 1) == 1;
  }

  // ---------------------------------------------------------------------------
  // Intersection area

  /** The box of the per-axis max of the lows and min of the highs. */
  function IntersectionBox(a: Zone, b: Zone): Zone
    requires SameDim(a, b)
  {
    Zone(seq(|a.lo|, i requires 0 <= i < |a.lo| => Max(a.lo[i], b.lo[i])),
         seq(|a.lo|, i requires 0 <= i < |a.lo| => Min(a.hi[i], b.hi[i])))
  }

  /** `intersectionArea` (Zone.java:148-156): 0 for disjoint zones, otherwise
      the content of the common box. */
  function IntersectionArea(a: Zone, b: Zone): int
    requires SameDim(a, b)
  {
    if !Intersects(a, b) then 0 else ContentOf(IntersectionBox(a, b))
  }

  /** The intersection area is symmetric, never negative, 0 for disjoint zones,
      and at most the content of either operand. */
  lemma IntersectionAreaBounds(a: Zone, b: Zone)
    requires Valid(a) && Valid(b) && SameDim(a, b)
    ensures IntersectionArea(a, b) == IntersectionArea(b, a)
    ensures !Intersects(a, b) ==> IntersectionArea(a, b) == 0
    ensures 0 <= IntersectionArea(a, b)
    ensures IntersectionArea(a, b) <= ContentOf(a) && IntersectionArea(a, b) <= ContentOf(b)
  {
    ContentNonNegative(a);
    ContentNonNegative(b);
    assert IntersectionBox(a, b).lo == IntersectionBox(b, a).lo;
    assert IntersectionBox(a, b).hi == IntersectionBox(b, a).hi;
    if Intersects(a, b) {
      var c := IntersectionBox(a, b);
      assert Valid(c);
      ContentNonNegative(c);
      ContentMonotone(c, a);
      ContentMonotone(c, b);
    }
  }

  // ---------------------------------------------------------------------------
  // Perimeter

  /** The sum of the extents of the first n axes. */
  function ExtentSum(z: Zone, n: nat): int
    requires n <= |z.lo| && n <= |z.hi|
  {
    if n == 0 then 0 else ExtentSum(z, n - 1) + Extent(z, n - 1)
  }

  /** `perimeter` (Zone.java:158-160), 2 * (x2 - x1) + 2 * (y2 - y1) in the
      source, generalised to twice the sum of the extents on every axis. */
  function Perimeter(z: Zone): int
    requires |z.lo| == |z.hi|
  {
    2 * ExtentSum(z, |z.lo|)
  }

  /** In two dimensions the perimeter is the source's formula. */
  lemma PerimeterPlanar(z: Zone)
    requires |z.lo| == |z.hi| == 2
    ensures Perimeter(z) == 2 * (z.hi[0] - z.lo[0]) + 2 * (z.hi[1] - z.lo[1])
  {
    assert ExtentSum(z, 1) == z.hi[0] - z.lo[0];
  }

  lemma {:induction false} ExtentSumMonotone(a: Zone, b: Zone, n: nat)
    requires Valid(a) && SameDim(a, b) && Within(a, b) && n <= |a.lo|
    ensures 0 <= ExtentSum(a, n) <= ExtentSum(b, n)
  {
    if n > 0 {
      ExtentSumMonotone(a, b, n - 1);
    }
  }

  /** The perimeter of a valid zone is never negative and grows with
      containment. */
  lemma PerimeterMonotone(a: Zone, b: Zone)
    requires Valid(a) && SameDim(a, b) && Within(a, b)
    ensures 0 <= Perimeter(a) <= Perimeter(b)
  {
    ExtentSumMonotone(a, b, |a.lo|);
  }

  // ---------------------------------------------------------------------------
  // Equality

  /** `equals` as written (Zone.java:139-146): Guava's Objects.equal on two
      float[] is reference equality on the arrays. */
  method EqualsAsWritten(coord1: array<int>, coord2: array<int>, other1: array<int>, other2: array<int>)
    returns (eq: bool)
    ensures eq <==> coord1 == other1 && coord2 == other2
  {
    eq := coord1 == other1 && coord2 == other2;
  }

  /** CuboidTest.testSimpleEquality: two zones built from separate arrays with the
      same coordinates are not equal as written. */
  method EqualsAsWrittenCounterexample() returns (sameCoordinates: bool, eq: bool)
    ensures sameCoordinates && !eq
  {
    var a1 := new int[3](k => 0);
    var a2 := new int[3](k => if k == 0 then 2 else 1);
    var b1 := new int[3](k => 0);
    var b2 := new int[3](k => if k == 0 then 2 else 1);
    sameCoordinates := a1[..] == b1[..] && a2[..] == b2[..];
    eq := EqualsAsWritten(a1, a2, b1, b2);
  }

  /** `equals` with the intended per-coordinate comparison of both corner
      vectors (what java.util.Arrays.equals does). */
  method Equals(a: Zone, b: Zone) returns (eq: bool)
    ensures eq <==> a == b
  {
    if |a.lo| != |b.lo| || |a.hi| != |b.hi| {
      return false;
    }
    eq := true;
    for i := 0 to |a.lo|
      invariant eq <==> forall k :: 0 <= k < i ==> a.lo[k] == b.lo[k]
    {
      if a.lo[i] != b.lo[i] {
        eq := false;
      }
    }
    var eqHi := true;
    for i := 0 to |a.hi|
      invariant eqHi <==> forall k :: 0 <= k < i ==> a.hi[k] == b.hi[k]
    {
      if a.hi[i] != b.hi[i] {
        eqHi := false;
      }
    }
    eq := eq && eqHi;
    if eq {
      assert a.lo == b.lo && a.hi == b.hi;
    }
  }
}
