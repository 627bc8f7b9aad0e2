# R-tree geometry kernel and R* split, in Dafny

This project models the geometry kernel of the `rtree` library and the R*-tree node splitter built on it:

- the n-dimensional axis-aligned box `Zone`: construction, content, union (`add`), point containment, intersection, distance, intersection area, perimeter and equality;
- the `Point` and `Circle` geometries;
- the `Intersects` search adapters;
- the `Geometries` factories, including longitude normalisation;
- `Util`: the bounding box of a collection, plus the list copy helpers `add`, `remove` and `replace`;
- the cost functions of `Functions`: `overlapListPair`, `overlapArea`, `areaIncrease`;
- `SplitterRStar`: the comparator, `sort`, `getPairs`, `marginValueSum`, the margin-sum comparator and `split`. Each of the `2 * dimension` orderings yields candidate splits. The ordering with the least margin total is kept, and from its candidates the first one with the least overlap (then the least area) is chosen.

## Modelling choices

- **Integers, not floats.** Coordinates are exact `int`s instead of Java `float`s. Euclidean distances are modelled by their squares.
  - `d <= t` is stated as `d² <= t²`, which is equivalent because both sides are non-negative.
  - The lemmas that speak of the square root itself take a parameter `e >= 0` with `e * e` equal to the squared distance.
- **Value types and classes.** `Zone`, `Point`, `Circle` and `ListPair` are immutable in the source, so here they are datatypes.
  - Java loops are Dafny methods with loop invariants, each proved equal to a specification function: `Zone` constructor, `content`, `add`, `contains`, `Util.mbr`, `remove`, `replace`, `overlapArea`, `getPairs`, `sort`, `marginValueSum`, `split`.
  - `Zone.equals` has no loop: it applies `Objects.equal` to the two arrays (`Zones.EqualsAsWritten`). The loop of `Zones.Equals` is the per-coordinate `Arrays.equals` comparison that corrects it.
  - `sort` copies the items into an array and sorts the array in place with a stable insertion sort.
- **n dimensions on half-migrated 2-D code.** The geometry classes are half-migrated from two dimensions to n.
  - In Zone.java, `intersects`, `distance`, `intersectionArea` and `perimeter` still use 2-D accessors the class no longer has.
  - `Point.create(x, y)`, `Point.distanceSquared` and the whole of `Circle` are still 2-D.
  - The model gives them the per-axis meaning that the 3-D tests assert. In two dimensions that meaning is the written formula: `Zones.PerimeterPlanar` proves this for the perimeter.
- **Perimeter.** The perimeter is twice the sum of the extents, which is the 2-D formula of Zone.java:158-160 carried to every axis. A sum over pairs of axes would be another generalisation, and it is not the one modelled.
- **Items of a split.** Items are any type `T` with a function `box: T -> Zone` (the source's `geometry().mbr()`).
  - Java identity (`!=` in `replace` and `overlapArea`) and `equals` (in `removeAll`) are both Dafny equality.
- **Comparator keys.** The keys of `ListPair.marginSum` and `Comparators.areaPairComparator` are parameters `marginSum` and `areaSum`. The overlap key is modelled.
  - `Collections.min` is `SplitterRStar.FirstMinIndex`: the first minimum.
  - The `HashMap` of `split` becomes a sequence aligned with the sort types. `SplitterRStar.SortTypesLayout` proves that no two sort types are equal, so no map entry is overwritten.

## Model

| member | source | states |
|---|---|---|
| Zones.Create | src/main/java/com/github/davidmoten/rtree/geometry/Zone.java:12-21 | succeeds exactly when both vectors are non-empty, of one length and lo <= hi on every axis; the result holds the given corners; otherwise IllegalArgument |
| Zones.Content | src/main/java/com/github/davidmoten/rtree/geometry/Zone.java:45-51 | the loop returns the product of the per-axis extents, which is never negative |
| Zones.ContentNonNegative | src/main/java/com/github/davidmoten/rtree/geometry/Zone.java:45-51 | a valid zone has non-negative content |
| Zones.ContentMonotone | src/main/java/com/github/davidmoten/rtree/geometry/Zone.java:45-51 | a zone inside another has no greater content |
| Zones.UnionContainsBoth | src/main/java/com/github/davidmoten/rtree/geometry/Zone.java:53-65 | the union of two valid zones is a valid zone of the same dimension containing both |
| Zones.UnionIsLeast | src/main/java/com/github/davidmoten/rtree/geometry/Zone.java:53-65 | any zone containing both operands contains their union |
| Zones.UnionCommutative | src/main/java/com/github/davidmoten/rtree/geometry/Zone.java:53-65 | the operand order of add does not matter |
| Zones.UnionIdempotent | src/main/java/com/github/davidmoten/rtree/geometry/Zone.java:53-65 | adding a zone to itself gives the zone |
| Zones.UnionAbsorbs | src/main/java/com/github/davidmoten/rtree/geometry/Zone.java:53-65 | adding a zone that already lies inside leaves the container unchanged |
| Zones.Add | src/main/java/com/github/davidmoten/rtree/geometry/Zone.java:53-65 | succeeds exactly when the dimensions agree, and then returns the valid union; otherwise IllegalArgument |
| Zones.ContainsAsWrittenOnlyDegenerate | src/main/java/com/github/davidmoten/rtree/geometry/Zone.java:71-82 | with the comparison as written, a valid zone contains a point only when the zone is that single point |
| Zones.ContainsAsWrittenCounterexample | src/main/java/com/github/davidmoten/rtree/geometry/Zone.java:77 | the point (20,30,20) lies inside (10,20,10)-(30,40,30), yet the written test rejects it |
| Zones.Contains | src/main/java/com/github/davidmoten/rtree/geometry/Zone.java:71-82 | a point of the wrong dimension gives IllegalArgument; otherwise true exactly when lo <= p <= hi on every axis |
| Zones.IntersectsIffCommonPoint | src/main/java/com/github/davidmoten/rtree/geometry/Zone.java:88-99 | intersection is symmetric and holds exactly when the zones share a point |
| Zones.IntersectsExamples | src/main/java/com/github/davidmoten/rtree/geometry/Zone.java:88-99 | overlapping 3-D zones intersect, and so do crossing bars neither of which holds a corner of the other, in either order |
| Zones.NestedIntersectsExamples | src/main/java/com/github/davidmoten/rtree/geometry/Zone.java:88-99 | a zone and a zone nested inside it intersect, in either order |
| Zones.SqDistanceSymmetric | src/main/java/com/github/davidmoten/rtree/geometry/Zone.java:105-122 | the distance is symmetric |
| Zones.SqDistanceZeroIffIntersects | src/main/java/com/github/davidmoten/rtree/geometry/Zone.java:105-122 | the distance is never negative and is 0 exactly when the zones intersect |
| Zones.GapAtMostDistance | src/main/java/com/github/davidmoten/rtree/geometry/Zone.java:105-122 | the gap on any one axis is at most the distance |
| Zones.SqDistanceExamples | src/main/java/com/github/davidmoten/rtree/geometry/Zone.java:105-122 | gaps 1, 5, 2 give distance sqrt 30 in 3-D, and gaps 1, 5 give sqrt 26 in 2-D |
| Zones.IntersectionAreaBounds | src/main/java/com/github/davidmoten/rtree/geometry/Zone.java:148-156 | the intersection area is symmetric, non-negative, 0 for disjoint zones, and at most either operand's content |
| Zones.PerimeterPlanar | src/main/java/com/github/davidmoten/rtree/geometry/Zone.java:158-160 | in two dimensions the perimeter is 2(x2-x1) + 2(y2-y1) |
| Zones.PerimeterMonotone | src/main/java/com/github/davidmoten/rtree/geometry/Zone.java:158-160 | the perimeter of a valid zone is non-negative and grows with containment |
| Zones.EqualsAsWritten | src/main/java/com/github/davidmoten/rtree/geometry/Zone.java:139-146 | as written, two zones are equal exactly when their corner arrays are the same array objects |
| Zones.EqualsAsWrittenCounterexample | src/main/java/com/github/davidmoten/rtree/geometry/Zone.java:139-146 | two zones built from separate arrays holding equal coordinates compare unequal as written |
| Zones.Equals | src/main/java/com/github/davidmoten/rtree/geometry/Zone.java:139-146 | per-coordinate comparison: true exactly when both corner vectors are equal |
| Points.Create | src/main/java/com/github/davidmoten/rtree/geometry/Point.java:11-13 | succeeds exactly for a non-empty coordinate vector, whose mbr is then valid; otherwise IllegalArgument |
| Points.MbrIsDegenerate | src/main/java/com/github/davidmoten/rtree/geometry/Point.java:11-22 | a point's mbr is valid, has lo = hi = the point, and contains the point |
| Points.DistanceSquaredProperties | src/main/java/com/github/davidmoten/rtree/geometry/Point.java:33-37 | the squared distance is symmetric, non-negative and 0 exactly for equal points |
| Points.DistanceSquaredIsMbrDistance | src/main/java/com/github/davidmoten/rtree/geometry/Point.java:29-37 | the point-to-point distance equals the zone distance between the two points' mbrs |
| Points.DistanceSquaredExamples | src/main/java/com/github/davidmoten/rtree/geometry/Point.java:33-37 | (1,2) to (4,6), (1,1,3) to (1,1,8) and (1,0,3) to (1,3,7) are each at distance 5 |
| Points.IntersectsZoneIffContains | src/main/java/com/github/davidmoten/rtree/geometry/Point.java:39-42 | a point meets a zone exactly when the zone contains it, which is exactly when its distance to the zone is 0 |
| Points.DistanceToMbr | src/main/java/com/github/davidmoten/rtree/geometry/Point.java:24-27 | a point is at distance 0 from its own mbr, and at positive distance from another point's mbr exactly when the points differ |
| Points.SqDistanceToZoneExamples | src/main/java/com/github/davidmoten/rtree/geometry/Point.java:24-27 | three point-to-zone distances are 5, in 2-D and in 3-D |
| Points.EqualityIsMbrEquality | src/main/java/com/github/davidmoten/rtree/geometry/Point.java:57-64 | comparing mbrs (per coordinate) is comparing the points |
| Circles.Create | src/main/java/com/github/davidmoten/rtree/geometry/Circle.java:12-17 | succeeds exactly for a non-empty centre and a non-negative radius, and the mbr is then valid; otherwise IllegalArgument |
| Circles.MbrExample | src/main/java/com/github/davidmoten/rtree/geometry/Circle.java:31-34 | circle((1,2),3) has mbr (-2,-1)-(4,5) |
| Circles.DistanceMatchesSquaredForm | src/main/java/com/github/davidmoten/rtree/geometry/Circle.java:36-44 | with e the centre's distance, max(0, e - radius) is non-negative, is 0 exactly when the circle intersects the zone, and is at most t exactly when the squared form holds |
| Circles.WithinDistanceMonotone | src/main/java/com/github/davidmoten/rtree/geometry/Circle.java:36-44 | distance bound 0 is the intersection test, and a larger bound admits every zone a smaller one does |
| Circles.IntersectsZoneImpliesMbrIntersects | src/main/java/com/github/davidmoten/rtree/geometry/Circle.java:41-44 | a zone the circle meets also meets the circle's mbr |
| Circles.IntersectsZoneExamples | src/main/java/com/github/davidmoten/rtree/geometry/Circle.java:41-44 | the unit circle at the origin meets (0,1)-(0,1) and (0,0)-(1,1), and misses (1,1)-(1,1), (1,1)-(2,2) and (10,10)-(11,11) |
| Circles.IntersectsCircleProperties | src/main/java/com/github/davidmoten/rtree/geometry/Circle.java:46-49 | circle intersection is symmetric, every circle meets itself, and unit circles at (0,0) and (100,100) do not meet |
| Circles.IntersectsPointIffMbr | src/main/java/com/github/davidmoten/rtree/geometry/Circle.java:66-68 | a circle meets a point exactly when it meets the point's mbr |
| Circles.IntersectsPointWithinRadius | src/main/java/com/github/davidmoten/rtree/geometry/Circle.java:66-68 | with e the centre-to-point distance, a circle meets a point exactly when e is at most the radius |
| Circles.IntersectsPointExamples | src/main/java/com/github/davidmoten/rtree/geometry/Circle.java:66-68 | the unit circle at the origin meets (0,0) and misses (100,100) |
| Intersects.RectangleAdapterWithinMbr | src/main/java/com/github/davidmoten/rtree/geometry/Intersects.java:11-16 | a zone matched by the rectangle adapter intersects the circle's mbr, so a search that descends by mbr loses no match |
| Intersects.AdaptersAgreeOnPoints | src/main/java/com/github/davidmoten/rtree/geometry/Intersects.java:18-23 | the point adapter agrees with the rectangle adapter applied to the point's mbr |
| Intersects.AdapterExamples | src/main/java/com/github/davidmoten/rtree/geometry/Intersects.java:11-23 | the origin meets the unit circle at the origin and misses those at (100,100,100) and from (10,10) |
| Geometries.PointXY | src/main/java/com/github/davidmoten/rtree/geometry/Geometries.java:11-13 | the point has exactly the two coordinates x, y |
| Geometries.ZoneXY | src/main/java/com/github/davidmoten/rtree/geometry/Geometries.java:15-17 | succeeds exactly when x1 <= x2 and y1 <= y2, giving the valid zone (x1,y1)-(x2,y2); otherwise IllegalArgument |
| Geometries.CircleXY | src/main/java/com/github/davidmoten/rtree/geometry/Geometries.java:19-21 | succeeds exactly for a non-negative radius, giving the circle centred at (x, y) with that radius, whose mbr is valid |
| Geometries.NormalizeLongitudeIdentity | src/main/java/com/github/davidmoten/rtree/geometry/Geometries.java:36-44 | longitudes strictly between -180 and 180 are unchanged |
| Geometries.NormalizeLongitudeOdd | src/main/java/com/github/davidmoten/rtree/geometry/Geometries.java:36-44 | normalising -d gives minus the normalised d |
| Geometries.NormalizeLongitudePeriodic | src/main/java/com/github/davidmoten/rtree/geometry/Geometries.java:36-44 | adding 360 on the positive side, or subtracting 360 on the negative side, does not change the result |
| Geometries.NormalizeLongitudeRange | src/main/java/com/github/davidmoten/rtree/geometry/Geometries.java:36-44 | the result names the same meridian, and lies in [-180,180) for positive inputs, in (-180,180] for negative ones, and is 0 for 0 |
| Geometries.NormalizeLongitudeExamples | src/main/java/com/github/davidmoten/rtree/geometry/Geometries.java:36-44 | 0, 89, 179, -89 and -179 are unchanged; 180 becomes -180 and -180 becomes 180; 181 and 541 become -179; -181 and -541 become 179; normalising twice at 180 differs from normalising once |
| Geometries.NormalizeLongitudeIdempotent | src/main/java/com/github/davidmoten/rtree/geometry/Geometries.java:36-44 | normalising twice equals normalising once except when the result is 180 or -180 |
| Geometries.RectangleGeographic | src/main/java/com/github/davidmoten/rtree/geometry/Geometries.java:23-30 | succeeds exactly when lat1 <= lat2; the west edge is the normalised lon1; the east edge is the normalised lon2, plus 360 exactly when that falls west of the west edge; so it is on lon2's meridian, at most 360 east of the west edge |
| Geometries.RectangleGeographicExamples | src/main/java/com/github/davidmoten/rtree/geometry/Geometries.java:23-30 | longitudes 10 to 5 give the span [10, 365]; 5 to 10 give [5, 10] |
| Geometries.PointGeographic | src/main/java/com/github/davidmoten/rtree/geometry/Geometries.java:32-34 | the longitude is normalised into [-180, 180] on the same meridian, and the latitude is kept |
| Geometries.PointGeographicExample | src/main/java/com/github/davidmoten/rtree/geometry/Geometries.java:32-34 | (181, 25) becomes (-179, 25) |
| Util.MbrOf | src/main/java/com/github/davidmoten/rtree/Util.java:43-70 | the bounding box of non-empty uniform items is a valid zone of their dimension |
| Util.Mbr | src/main/java/com/github/davidmoten/rtree/Util.java:43-70 | an empty collection gives IllegalArgument; otherwise the loop's result is the left fold of add over the items |
| Util.Widen | src/main/java/com/github/davidmoten/rtree/Util.java:60-67 | one item's pass turns the mins/maxs arrays holding the running box into its union with the item |
| Util.MbrOfContains | src/main/java/com/github/davidmoten/rtree/Util.java:43-70 | every item lies within the mbr |
| Util.MbrOfLeast | src/main/java/com/github/davidmoten/rtree/Util.java:43-70 | any zone containing every item contains the mbr |
| Util.MbrOfTight | src/main/java/com/github/davidmoten/rtree/Util.java:43-70 | on every axis the mbr's low is some item's low and its high is some item's high |
| Util.MbrOfExample | src/main/java/com/github/davidmoten/rtree/Util.java:43-70 | the mbr of (0,1)-(3,5) and (1,2)-(4,6) is (0,1)-(4,6) |
| Util.MbrAsWritten | src/main/java/com/github/davidmoten/rtree/Util.java:52-67 | the fold seeded with Float.MAX_VALUE lows and a positive high seed keeps the items' dimension |
| Util.SeededFoldIsUnion | src/main/java/com/github/davidmoten/rtree/Util.java:52-67 | folding the items from a seed is the union of the seed with their mbr |
| Util.MbrAsWrittenAgreement | src/main/java/com/github/davidmoten/rtree/Util.java:55-58 | the result as written equals the true mbr exactly when every axis's high reaches the positive seed |
| Util.MbrAsWrittenCounterexample | src/main/java/com/github/davidmoten/rtree/Util.java:57 | the single item (-2)-(-1) has mbr high -1, but the result as written has the positive seed as its high |
| Util.Add | src/main/java/com/github/davidmoten/rtree/Util.java:72-77 | the copy is one longer, begins with the list and ends with the element |
| Util.Remove | src/main/java/com/github/davidmoten/rtree/Util.java:79-83 | the filtering loop keeps, in order, exactly the elements not among `elements` |
| Util.WithoutMultiset | src/main/java/com/github/davidmoten/rtree/Util.java:79-83 | an element survives removal exactly when it was present and not removed, with its multiplicity unchanged; removed elements occur 0 times |
| Util.WithoutNothing | src/main/java/com/github/davidmoten/rtree/Util.java:79-83 | removing elements absent from the list returns an equal list |
| Util.WithoutConcat | src/main/java/com/github/davidmoten/rtree/Util.java:79-92 | filtering distributes over concatenation, so order is kept |
| Util.Replace | src/main/java/com/github/davidmoten/rtree/Util.java:85-92 | the result is the elements other than `element`, in order, followed by the replacements |
| Util.ReplaceLength | src/main/java/com/github/davidmoten/rtree/Util.java:85-92 | the result has length \|list\| minus the occurrences of `element` plus \|replacements\| |
| Functions.GroupMbr | src/main/java/com/github/davidmoten/rtree/Functions.java:25-26 | a non-empty uniform group's box is a valid zone of the items' dimension |
| Functions.OverlapListPairProperties | src/main/java/com/github/davidmoten/rtree/Functions.java:21-28 | the pair overlap is non-negative and independent of group order, is 0 for disjoint group boxes, and is at most either group box's content |
| Functions.AreaIncrease | src/main/java/com/github/davidmoten/rtree/Functions.java:48-56 | defined exactly when the dimensions agree; otherwise add's IllegalArgument |
| Functions.AreaIncreaseProperties | src/main/java/com/github/davidmoten/rtree/Functions.java:48-56 | the increase is non-negative, and 0 when r already lies inside g's box |
| Functions.OverlapArea | src/main/java/com/github/davidmoten/rtree/Functions.java:30-46 | the loop sums the intersection area of g's box grown by r with the box of every list member other than g |
| Functions.OverlapSumBounds | src/main/java/com/github/davidmoten/rtree/Functions.java:30-46 | that sum is non-negative, at most \|list\| times the grown box's content, and 0 when every member is g |
| Sorting.InsertPermutes | src/main/java/com/github/davidmoten/rtree/SplitterRStar.java:123-128 | one insertion step adds exactly the inserted element |
| Sorting.InsertSorted | src/main/java/com/github/davidmoten/rtree/SplitterRStar.java:123-128 | inserting into a sorted list keeps it sorted |
| Sorting.InsertWithKey | src/main/java/com/github/davidmoten/rtree/SplitterRStar.java:123-128 | inserting places the element after every element of equal key |
| Sorting.StableSortProperties | src/main/java/com/github/davidmoten/rtree/SplitterRStar.java:123-128 | the sorted copy is a permutation of the input, sorted by key, and the elements sharing a key keep their input order |
| Sorting.StableSortOfSorted | src/main/java/com/github/davidmoten/rtree/SplitterRStar.java:123-128 | an already sorted list comes back unchanged |
| Sorting.InsertPosition | src/main/java/com/github/davidmoten/rtree/SplitterRStar.java:126 | when x's key is below every key from position j on and not below the key before j, insertion places x at j |
| Sorting.InsertAt | src/main/java/com/github/davidmoten/rtree/SplitterRStar.java:126 | the prefix with x placed at j and the larger elements shifted right is the stable insertion of x |
| Sorting.ShiftLarger | src/main/java/com/github/davidmoten/rtree/SplitterRStar.java:126 | the shifting loop moves the larger-keyed elements of the prefix one place right and returns the gap j, with every key from j on above x's and the key before j at most x's |
| Sorting.InsertStep | src/main/java/com/github/davidmoten/rtree/SplitterRStar.java:126 | one pass moves a[i] left past larger keys: the prefix becomes the stable insertion of a[i], and the rest of the array is unchanged |
| Sorting.Sort | src/main/java/com/github/davidmoten/rtree/SplitterRStar.java:123-128 | the array copy sorted in place is the stable sort of the items |
| SplitterRStar.Compare | src/main/java/com/github/davidmoten/rtree/SplitterRStar.java:29-37 | returns -1, 0 or 1: negative exactly when a's compared coordinate is smaller, 0 exactly when the coordinates are equal |
| SplitterRStar.CompareContract | src/main/java/com/github/davidmoten/rtree/SplitterRStar.java:29-37 | the comparator is antisymmetric and transitive |
| SplitterRStar.OrderingProperties | src/main/java/com/github/davidmoten/rtree/SplitterRStar.java:123-128 | each ordering is a permutation of the items, uniform like them, and ordered by the comparator |
| SplitterRStar.CandidatesProperties | src/main/java/com/github/davidmoten/rtree/SplitterRStar.java:112-121 | candidates are exactly the prefix/suffix splits with at least minSize items on each side, in split-point order, n - 2 minSize + 1 of them |
| SplitterRStar.CandidatesWellFormed | src/main/java/com/github/davidmoten/rtree/SplitterRStar.java:112-121 | with minSize >= 1, every candidate has two non-empty groups of uniform items |
| SplitterRStar.GetPairs | src/main/java/com/github/davidmoten/rtree/SplitterRStar.java:112-121 | IllegalArgument exactly when the capacity n - 2 minSize + 1 is negative; otherwise every legal split, in order |
| SplitterRStar.GetPairsAsWritten | src/main/java/com/github/davidmoten/rtree/SplitterRStar.java:112-121 | as written, the same error case, and the splits at points minSize <= i < n - minSize |
| SplitterRStar.PairsAsWrittenDropsLast | src/main/java/com/github/davidmoten/rtree/SplitterRStar.java:114 | as written, the candidate list is the intended one minus its last split, the one whose second group has exactly minSize items |
| SplitterRStar.PairsAsWrittenCounterexample | src/main/java/com/github/davidmoten/rtree/SplitterRStar.java:114 | two items with minSize 1: the split 1\|1 is legal, but as written there is no candidate |
| SplitterRStar.MarginValueSum | src/main/java/com/github/davidmoten/rtree/SplitterRStar.java:105-110 | the loop returns the sum of every candidate's margin key |
| SplitterRStar.MarginTotalProperties | src/main/java/com/github/davidmoten/rtree/SplitterRStar.java:105-110 | the margin total adds up over concatenation, and is non-negative when every margin is |
| SplitterRStar.FirstMinIndex | src/main/java/com/github/davidmoten/rtree/SplitterRStar.java:72-75 | Collections.min: no element is smaller than the chosen one, and every earlier element is strictly larger |
| SplitterRStar.SortTypesLayout | src/main/java/com/github/davidmoten/rtree/SplitterRStar.java:60-67 | there are exactly 2 dim sort types: axis k/2, by the high corner when k is odd; no two are equal |
| SplitterRStar.BestSortType | src/main/java/com/github/davidmoten/rtree/SplitterRStar.java:95-103 | the index of the least-margin sort type is one of the 2 dim sort types |
| SplitterRStar.ChosenType | src/main/java/com/github/davidmoten/rtree/SplitterRStar.java:72 | the chosen sort type names an axis of the items |
| SplitterRStar.ChosenPairsWellFormed | src/main/java/com/github/davidmoten/rtree/SplitterRStar.java:73 | every candidate of the chosen ordering is well formed for the overlap key |
| SplitterRStar.ChosenIndex | src/main/java/com/github/davidmoten/rtree/SplitterRStar.java:75 | the chosen pair is one of the chosen ordering's candidates |
| SplitterRStar.BuildCandidates | src/main/java/com/github/davidmoten/rtree/SplitterRStar.java:57-68 | IllegalArgument exactly when n < 2 minSize - 1; otherwise the 2 dim sort types in order, each with the candidate list of its ordering |
| SplitterRStar.MarginsOf | src/main/java/com/github/davidmoten/rtree/SplitterRStar.java:95-103 | the margin key of every sort type is the margin total of its candidate list |
| SplitterRStar.LeastPairCost | src/main/java/com/github/davidmoten/rtree/SplitterRStar.java:75 | the first minimum of the pair costs has the least cost, and every earlier pair costs strictly more |
| SplitterRStar.Split | src/main/java/com/github/davidmoten/rtree/SplitterRStar.java:48-76 | over the corrected getPairs, the method, which builds the orderings, the map and the margins and makes both minimum selections, returns the split specification's result |
| SplitterRStar.SplitOutcome | src/main/java/com/github/davidmoten/rtree/SplitterRStar.java:48-76 | over the corrected getPairs: succeeds exactly when n >= 2 minSize; IllegalArgument for an empty list or n < 2 minSize - 1; NoSuchElement at n = 2 minSize - 1; on success the groups partition a permutation of the items and each holds at least minSize |
| SplitterRStar.SplitChoosesLeastMargin | src/main/java/com/github/davidmoten/rtree/SplitterRStar.java:72 | the chosen ordering has the least margin total of all 2 dim orderings, and every earlier ordering's total is strictly larger |
| SplitterRStar.SplitReturnsChosenCandidate | src/main/java/com/github/davidmoten/rtree/SplitterRStar.java:73-75 | once n >= 2 minSize, the chosen ordering has candidates and split returns the one at the chosen index |
| SplitterRStar.ChosenTypeAsWritten | src/main/java/com/github/davidmoten/rtree/SplitterRStar.java:72 | as written, the least-margin sort type, computed over the shorter candidate lists, names an axis of the items |
| SplitterRStar.PairsAsWrittenWellFormed | src/main/java/com/github/davidmoten/rtree/SplitterRStar.java:112-121 | every pair getPairs builds as written is well formed for the overlap key |
| SplitterRStar.SplitAsWrittenOutcome | src/main/java/com/github/davidmoten/rtree/SplitterRStar.java:48-76 | split as written, over getPairs as written: succeeds exactly when n >= 2 minSize + 1; IllegalArgument for an empty list or n < 2 minSize - 1; NoSuchElement at n = 2 minSize - 1 and at n = 2 minSize, where the corrected split succeeds |
| SplitterRStar.SplitAsWrittenPair | src/main/java/com/github/davidmoten/rtree/SplitterRStar.java:48-76 | a pair split returns as written divides the chosen ordering, with at least minSize items in its first group and more than minSize in its second |
| SplitterRStar.SplitChoosesLeastOverlap | src/main/java/com/github/davidmoten/rtree/SplitterRStar.java:42-45 | the returned candidate has the least (overlap, area) cost in lexicographic order, and every earlier candidate's cost is strictly larger |

## Left out

- Floating point: `float` rounding, `Float.compareTo` on NaN and -0.0, single-precision overflow of content and distance, and `Math.sqrt`. Coordinates are exact integers and distances are squared.
- Circles.IntersectsPointWithinRadius: states `e <= radius` only when the centre-to-point distance is a whole number `e`, since the model has no real square root; the squared test itself holds for every point.
- Circles.DistanceMatchesSquaredForm: relates the source's distance to the squared form only when the distance is a whole number `e`, since the model has no real square root.
- Util.MbrAsWritten: Float.MIN_VALUE, the smallest positive float, is modelled as any positive integer seed `floor`, because integers have no smaller positive value.
- `hashCode` and `toString` of every class: they do not affect the modelled results.
- The 2-D-only accessors, and Zone's `coord1(dim)`/`coord2(dim)` range checks: the model reads coordinates by index, and its preconditions keep every index in range. Those checks (Zone.java:31-43) accept `dim == dim()`, which then fails with an array index error instead of IllegalArgument; no modelled operation asks for that index.
- Aliasing of the coordinate arrays: the Zone constructor keeps the caller's arrays without copying them, so a caller that later writes to them changes the zone. Zones are values here.
- `Zone.mbr()`: it returns the zone itself, which the model uses directly.
- `dim()`: it is `Zones.Dim`.
- Null arguments and null items: sequences and datatypes cannot be null.
- `Circle.equals`: it compares centre and radius, which is the datatype's own equality.
- `SortType.equals(SortType)`: it overloads rather than overrides `equals(Object)`, so the `HashMap` looks keys up by identity. `split` only looks up the very objects it inserted, and every sort type is distinct, so the aligned-sequence model returns the same lists.
- SplitterRStar.Split: is modelled over the corrected getPairs (the Findings row for SplitterRStar.java:114), so it also succeeds at n = 2 minSize and counts the last split in every margin total. `SplitAsWrittenResult`, characterised by `SplitterRStar.SplitAsWrittenOutcome`, is split with getPairs as written and nothing else as written: its group boxes are the corrected mbr (see `Functions.GroupMbr` below); it has no method of its own.
- SplitterRStar.Split: requires `minSize >= 1`. With 0, a candidate could have an empty group, and an empty group has no bounding box.
- SplitterRStar.Split: requires every item's box to be valid and of one dimension, as the items of one tree are. Mixed dimensions, on which `add` and `intersectionArea` would throw, are not modelled.
- Util.Mbr and Functions.OverlapArea: require every box to have one dimension. On mixed dimensions `Util.mbr` drops the extra axes of later items or stops with an array index error, and `overlapArea` stops with `add`'s IllegalArgument when g's box and r differ in dimension, while a list member of another dimension reaches `intersectionArea`, which the source defines only in two dimensions; neither behaviour is modelled.
- Functions.GroupMbr: every group box is the corrected bounding box `Util.MbrOf`, not the fold seeded with Float.MIN_VALUE (Util.java:57). So the overlap key, the pair cost, `Split` and `SplitAsWrittenResult` rank candidates by corrected group boxes; with the seed as written, groups lying below 0 on an axis get highs near 0 there and can overlap where the model's boxes are disjoint.
- `ListPair`'s own `marginSum` and the area comparator are not part of this model. They enter as the key parameters `marginSum` and `areaSum`; only the overlap key is modelled.
- `Comparators` and the rest of the tree are not part of this model: node types, insertion, deletion, selectors, the quadratic splitter, queries, RxJava back-pressure and the visualiser.
- Functions.OverlapArea and Functions.AreaIncrease: the source returns curried Rx `Func1` objects; the model takes all arguments at once.

## Findings

| source | as written | input that shows it | evidently intended | confidence | as-written member | corrected member |
|---|---|---|---|---|---|---|
| src/main/java/com/github/davidmoten/rtree/geometry/Zone.java:77 | `contains` clears its flag when coord1[i] < p[i] or coord2[i] > p[i], so a valid zone contains only its own single point | zone (10,20,10)-(30,40,30), point (20,30,20): rejected, though the 3-D cuboid containment test expects true | clear the flag when p[i] < coord1[i] or p[i] > coord2[i] | not executed | Zones.ContainsAsWrittenOnlyDegenerate, Zones.ContainsAsWrittenCounterexample | Zones.Contains |
| src/main/java/com/github/davidmoten/rtree/Util.java:57 | `maxs` is seeded with Float.MIN_VALUE, the smallest positive float, so a box lying wholly on the negative side of an axis gets a positive high there | one item (-2)-(-1): expected high -1, as written about 1.4e-45 | seed with the most negative float (-Float.MAX_VALUE), or from the first item | not executed | Util.MbrAsWritten, Util.MbrAsWrittenCounterexample | Util.Mbr |
| src/main/java/com/github/davidmoten/rtree/geometry/Zone.java:139-146 | `equals` applies Guava's Objects.equal to the two float[] fields, which compares array references | two zones (0,0,0)-(2,1,1) built from separate arrays compare unequal; the cuboid equality test expects them equal | per-coordinate comparison (Arrays.equals) | not executed | Zones.EqualsAsWritten, Zones.EqualsAsWrittenCounterexample | Zones.Equals |
| src/main/java/com/github/davidmoten/rtree/SplitterRStar.java:114 | the loop stops at i < n - minSize, dropping the split whose second group has exactly minSize items; the capacity n - 2 minSize + 1 on line 113 counts it | two items with minSize 1: no candidate, so Collections.min throws, though the split 1\|1 is legal; in general split throws NoSuchElement at n = 2 minSize | loop to i <= n - minSize | not executed | SplitterRStar.GetPairsAsWritten, SplitterRStar.PairsAsWrittenCounterexample, SplitterRStar.SplitAsWrittenOutcome | SplitterRStar.GetPairs, SplitterRStar.Split |
