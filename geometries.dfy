/** The factories of geometry/Geometries.java: two-dimensional constructors
    and the geographic ones, which normalise longitudes first. */
module Geometries {
  import opened Wrappers
  import opened Zones
  import Points
  import Circles

  /** `point(x, y)` (Geometries.java:11-13). */
  function PointXY(x: int, y: int): (p: Points.Point)
    ensures |p.coord| == 2 && p.coord[0] == x && p.coord[1] == y
  {
    Points.Point([x, y])
  }

  /** `zone(x1, y1, x2, y2)` (Geometries.java:15-17): the validating Zone
      constructor on the corners (x1,y1) and (x2,y2). */
  function ZoneXY(x1: int, y1: int, x2: int, y2: int): (r: Result<Zone>)
    ensures r.Ok? <==> x1 <= x2 && y1 <= y2
    ensures r.Ok? ==> Valid(r.value) && r.value.lo == [x1, y1] && r.value.hi == [x2, y2]
    ensures r.Err? ==> r.error == IllegalArgument
  {
    var z := Zone([x1, y1], [x2, y2]);
    assert Valid(z) ==> z.lo[0] <= z.hi[0] && z.lo[1] <= z.hi[1];
    if Valid(z) then Ok(z) else Err(IllegalArgument)
  }

  /** `circle(x, y, radius)` (Geometries.java:19-21): rejected when the mbr
      would be invalid, that is for a negative radius. */
  function CircleXY(x: int, y: int, radius: int): (r: Result<Circles.Circle>)
    ensures r.Ok? <==> radius >= 0
    ensures r.Ok? ==> r.value == Circles.Circle([x, y], radius)
    ensures r.Ok? ==> Circles.ValidCircle(r.value) && Valid(Circles.Mbr(r.value))
    ensures r.Err? ==> r.error == IllegalArgument
  {
    var c := Circles.Circle([x, y], radius);
    assert Valid(Circles.Mbr(c)) ==> Circles.Mbr(c).lo[0] <= Circles.Mbr(c).hi[0];
    if Valid(Circles.Mbr(c)) then Ok(c)
    else
      assert Circles.Mbr(c).lo[0] > Circles.Mbr(c).hi[0];
      Err(IllegalArgument)
  }

  function Abs(d: int): nat { if d < 0 then -d else d }

  function Signum(d: int): int { if d > 0 then 1 else if d < 0 then -1 else 0 }

  /** `normalizeLongitude` (Geometries.java:36-44): the magnitude is reduced
      modulo 360, moved into [-180, 180), and given the sign of the input. */
  function NormalizeLongitude(d: int): int {
    var m := Abs(d) % 360;
    var x2 := if m >= 180 then m - 360 else m;
    x2 * Signum(d)
  }

  /** Longitudes strictly between -180 and 180 are unchanged. */
  lemma NormalizeLongitudeIdentity(d: int)
    requires -180 < d < 180
    ensures NormalizeLongitude(d) == d
  {
  }

  /** The function is odd: the sign is applied last. */
  lemma NormalizeLongitudeOdd(d: int)
    ensures NormalizeLongitude(-d) == -NormalizeLongitude(d)
  {
  }

  /** It is 360-periodic on each side of 0. */
  lemma NormalizeLongitudePeriodic(d: int)
    ensures d >= 0 ==> NormalizeLongitude(d + 360) == NormalizeLongitude(d)
    ensures d <= 0 ==> NormalizeLongitude(d - 360) == NormalizeLongitude(d)
  {
    assert (Abs(d) + 360) % 360 == Abs(d) % 360;
  }

  /** The result names the same meridian (it differs from the input by a
      multiple of 360) and lies in [-180, 180) for positive inputs and in
      (-180, 180] for negative ones. */
  lemma NormalizeLongitudeRange(d: int)
    ensures (NormalizeLongitude(d) - d) % 360 == 0
    ensures d > 0 ==> -180 <= NormalizeLongitude(d) < 180
    ensures d < 0 ==> -180 < NormalizeLongitude(d) <= 180
    ensures d == 0 ==> NormalizeLongitude(d) == 0
  {
    var m := Abs(d) % 360;
    var q := Abs(d) / 360;
    var x2 := if m >= 180 then m - 360 else m;
    assert Abs(d) == q * 360 + m;
    if d < 0 {
      assert NormalizeLongitude(d) - d == 360 * (q + (if m >= 180 then 1 else 0));
    } else if d > 0 {
      assert NormalizeLongitude(d) - d == 360 * (-q - (if m >= 180 then 1 else 0));
    }
  }

  /** GeometriesTest.java:18-66; the last two show that 180 and -180 swap, so
      normalising twice is not the same as normalising once there. */
  lemma NormalizeLongitudeExamples()
    ensures NormalizeLongitude(0) == 0 && NormalizeLongitude(89) == 89
    ensures NormalizeLongitude(179) == 179 && NormalizeLongitude(180) == -180
    ensures NormalizeLongitude(181) == -179 && NormalizeLongitude(541) == -179
    ensures NormalizeLongitude(-89) == -89 && NormalizeLongitude(-179) == -179
    ensures NormalizeLongitude(-181) == 179 && NormalizeLongitude(-541) == 179
    ensures NormalizeLongitude(-180) == 180
    ensures NormalizeLongitude(NormalizeLongitude(180)) != NormalizeLongitude(180)
  {
  }

  /** Normalising is idempotent everywhere except at the two antimeridian
      values 180 and -180. */
  lemma NormalizeLongitudeIdempotent(d: int)
    requires NormalizeLongitude(d) != 180 && NormalizeLongitude(d) != -180
    ensures NormalizeLongitude(NormalizeLongitude(d)) == NormalizeLongitude(d)
  {
    NormalizeLongitudeRange(d);
    NormalizeLongitudeIdentity(NormalizeLongitude(d));
  }

  /** `rectangleGeographic` (Geometries.java:23-30): both longitudes are
      normalised and the east edge moved up by 360 when it would fall west of
      the west edge. Only the latitudes can make the zone invalid; the
      longitude span is at most 360 and both edges keep their meridians. */
  function RectangleGeographic(lon1: int, lat1: int, lon2: int, lat2: int): (r: Result<Zone>)
    ensures r.Ok? <==> lat1 <= lat2
    ensures r.Ok? ==> Valid(r.value) && Dim(r.value) == 2
    ensures r.Ok? ==> r.value.lo[0] == NormalizeLongitude(lon1)
    ensures r.Ok? ==>
      r.value.hi[0] == NormalizeLongitude(lon2) + (if NormalizeLongitude(lon2) < NormalizeLongitude(lon1) then 360 else 0)
    ensures r.Ok? ==> r.value.lo[1] == lat1 && r.value.hi[1] == lat2
    ensures r.Ok? ==> 0 <= r.value.hi[0] - r.value.lo[0] <= 360
    ensures r.Ok? ==> (r.value.hi[0] - lon2) % 360 == 0
    ensures r.Err? ==> r.error == IllegalArgument
  {
    var x1 := NormalizeLongitude(lon1);
    var n2 := NormalizeLongitude(lon2);
    NormalizeLongitudeRange(lon1);
    NormalizeLongitudeRange(lon2);
    EastEdge(x1, n2, lon2);
    var x2 := if n2 < x1 then n2 + 360 else n2;
    ZoneXY(x1, lat1, x2, lat2)
  }

  /** Moving an east edge that lies west of the west edge up by 360 leaves it
      on its meridian and at most 360 east of the west edge. */
  lemma EastEdge(x1: int, n2: int, lon2: int)
    requires -180 <= x1 <= 180 && -180 <= n2 <= 180 && (n2 - lon2) % 360 == 0
    ensures var x2 := if n2 < x1 then n2 + 360 else n2;
      0 <= x2 - x1 <= 360 && (x2 - lon2) % 360 == 0
  {
    if n2 < x1 {
      assert n2 + 360 - lon2 == (n2 - lon2) + 360;
    }
  }

  /** GeometriesTest.testRectangleLatLong and testRectangleLatLong2: the
      longitudes 10 and 5 give the span [10, 365]; 5 and 10 give [5, 10]. */
  lemma RectangleGeographicExamples()
    ensures RectangleGeographic(10, -10, 5, 10) == Ok(Zone([10, -10], [365, 10]))
    ensures RectangleGeographic(5, -10, 10, 10) == Ok(Zone([5, -10], [10, 10]))
  {
  }

  /** `pointGeographic` (Geometries.java:32-34): only the longitude is
      normalised. */
  function PointGeographic(lon: int, lat: int): (p: Points.Point)
    ensures |p.coord| == 2 && p.coord[1] == lat
    ensures p.coord[0] == NormalizeLongitude(lon)
    ensures -180 <= p.coord[0] <= 180 && (p.coord[0] - lon) % 360 == 0
  {
    NormalizeLongitudeRange(lon);
    PointXY(NormalizeLongitude(lon), lat)
  }

  /** GeometriesTest.testPointLatLong: (181, 25) becomes (-179, 25). */
  lemma PointGeographicExample()
    ensures PointGeographic(181, 25) == Points.Point([-179, 25])
  {
  }
}
