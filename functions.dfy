/** Functions.java: the cost functions the tree's selectors and splitters
    rank candidates by. Items are any type with a bounding box (`box`, the
    source's `geometry().mbr()`); a candidate split is a ListPair of two
    groups, each bounded by the mbr of its items. */
module Functions {
  import opened Wrappers
  import opened Zones
  import Util

  /** A candidate split: two groups of items (geometry/ListPair.java). */
  datatype ListPair<T> = ListPair(group1: seq<T>, group2: seq<T>)

  /** The boxes of the items, in order. */
  function Boxes<T>(items: seq<T>, box: T -> Zone): seq<Zone> {
    seq(|items|, k requires 0 <= k < |items| => box(items[k]))
  }

  /** Items of one tree: valid boxes, all of one dimension. */
  predicate UniformItems<T>(items: seq<T>, box: T -> Zone) {
    forall k :: 0 <= k < |items| ==> Valid(box(items[k])) && Dim(box(items[k])) == Dim(box(items[0]))
  }

  /** A group's box: what `group.geometry().mbr()` returns, the bounding box
      of its items as the corrected Util.mbr computes it. */
  function GroupMbr<T>(items: seq<T>, box: T -> Zone): (r: Zone)
    requires |items| != 0 && UniformItems(items, box)
    ensures Valid(r) && SameDim(r, box(items[0]))
  {
    assert Uniform(Boxes(items, box));
    Util.MbrOf(Boxes(items, box))
  }

  /** Both groups are non-empty and together uniform. */
  predicate WellFormedPair<T>(pair: ListPair<T>, box: T -> Zone) {
    |pair.group1| != 0 && |pair.group2| != 0 && UniformItems(pair.group1 + pair.group2, box)
  }

  /** The two groups of a well-formed pair are uniform and of one dimension. */
  lemma WellFormedPairGroups<T>(pair: ListPair<T>, box: T -> Zone)
    requires WellFormedPair(pair, box)
    ensures UniformItems(pair.group1, box) && UniformItems(pair.group2, box)
    ensures Dim(box(pair.group1[0])) == Dim(box(pair.group2[0]))
  {
    var all := pair.group1 + pair.group2;
    assert forall k :: 0 <= k < |pair.group1| ==> pair.group1[k] == all[k];
    assert forall k :: 0 <= k < |pair.group2| ==> pair.group2[k] == all[|pair.group1| + k];
  }

  /** `overlapListPair` (Functions.java:21-28): the intersection area of the
      two groups' boxes. */
  function OverlapListPair<T>(pair: ListPair<T>, box: T -> Zone): int
    requires WellFormedPair(pair, box)
  {
    WellFormedPairGroups(pair, box);
    IntersectionArea(GroupMbr(pair.group1, box), GroupMbr(pair.group2, box))
  }

  /** The pair overlap is never negative, does not depend on which group is
      first, is 0 when the group boxes are disjoint, and is at most the
      content of either group's box. */
  lemma OverlapListPairProperties<T>(pair: ListPair<T>, box: T -> Zone)
    requires WellFormedPair(pair, box)
    ensures UniformItems(pair.group1, box) && UniformItems(pair.group2, box)
    ensures Dim(box(pair.group1[0])) == Dim(box(pair.group2[0]))
    ensures WellFormedPair(ListPair(pair.group2, pair.group1), box)
    ensures OverlapListPair(pair, box) >= 0
    ensures OverlapListPair(pair, box) == OverlapListPair(ListPair(pair.group2, pair.group1), box)
    ensures !Intersects(GroupMbr(pair.group1, box), GroupMbr(pair.group2, box)) ==>
      OverlapListPair(pair, box) == 0
    ensures OverlapListPair(pair, box) <= ContentOf(GroupMbr(pair.group1, box))
    ensures OverlapListPair(pair, box) <= ContentOf(GroupMbr(pair.group2, box))
  {
    WellFormedPairGroups(pair, box);
    var all := pair.group1 + pair.group2;
    var swapped := pair.group2 + pair.group1;
    assert forall k :: 0 <= k < |swapped| ==>
      swapped[k] == if k < |pair.group2| then all[|pair.group1| + k] else all[k - |pair.group2|];
    assert Dim(box(swapped[0])) == Dim(box(all[0]));
    IntersectionAreaBounds(GroupMbr(pair.group1, box), GroupMbr(pair.group2, box));
  }

  /** `areaIncrease(r)(g)` (Functions.java:48-56): how much g's box grows in
      content when r is added to it. `add` rejects zones of another
      dimension. */
  function AreaIncrease(r: Zone, g: Zone): (res: Result<int>)
    requires Valid(r) && Valid(g)
    ensures res.Ok? <==> Dim(r) == Dim(g)
    ensures res.Err? ==> res.error == IllegalArgument
  {
    if Dim(r) != Dim(g) then Err(IllegalArgument)
    else Ok(ContentOf(Union(g, r)) - ContentOf(g))
  }

  /** The increase is never negative, and is 0 when r already lies within g,
      since the union is then g itself. */
  lemma AreaIncreaseProperties(r: Zone, g: Zone)
    requires Valid(r) && Valid(g) && Dim(r) == Dim(g)
    ensures AreaIncrease(r, g).Ok?
    ensures AreaIncrease(r, g).value >= 0
    ensures Within(r, g) ==> AreaIncrease(r, g).value == 0
  {
    UnionContainsBoth(g, r);
    ContentMonotone(g, Union(g, r));
    if Within(r, g) {
      UnionAbsorbs(g, r);
    }
  }

  /** The summed intersection area of `gr` with the boxes of the list
      members other than `g`. */
  function OverlapSum<T(==)>(gr: Zone, list: seq<T>, g: T, box: T -> Zone): int
    requires |gr.lo| == |gr.hi|
    requires forall k :: 0 <= k < |list| ==> Valid(box(list[k])) && Dim(box(list[k])) == Dim(gr)
  {
    if |list| == 0 then 0
    else
      var last := list[|list| - 1];
      assert Valid(box(last)) && Dim(box(last)) == Dim(gr);
      OverlapSum(gr, list[..|list| - 1], g, box)
        + (if last != g then IntersectionArea(gr, box(last)) else 0)
  }

  /** `overlapArea(r, list)(g)` (Functions.java:30-46): g's box is grown by r,
      then the loop adds its intersection area with every other member of the
      list. */
  method OverlapArea<T(==)>(r: Zone, list: seq<T>, g: T, box: T -> Zone) returns (m: int)
    requires Valid(r) && Valid(box(g)) && Dim(box(g)) == Dim(r)
    requires forall k :: 0 <= k < |list| ==> Valid(box(list[k])) && Dim(box(list[k])) == Dim(r)
    ensures SameDim(box(g), r)
    ensures m == OverlapSum(Union(box(g), r), list, g, box)
  {
    var added := Add(box(g), r);
    var gPlusR := added.value;
    m := 0;
    for i := 0 to |list|
      invariant m == OverlapSum(gPlusR, list[..i], g, box)
    {
      assert list[..i + 1][..i] == list[..i];
      var other := list[i];
      if other != g {
        m := m + IntersectionArea(gPlusR, box(other));
      }
    }
    assert list[..|list|] == list;
  }

  lemma MulSucc(n: int, c: int)
    ensures (n + 1) * c == n * c + c
  {
  }

  /** The overlap is never negative, at most |list| times the content of the
      grown box, and 0 when every member of the list is g itself. */
  lemma {:induction false} OverlapSumBounds<T>(gr: Zone, list: seq<T>, g: T, box: T -> Zone)
    requires Valid(gr)
    requires forall k :: 0 <= k < |list| ==> Valid(box(list[k])) && Dim(box(list[k])) == Dim(gr)
    ensures 0 <= OverlapSum(gr, list, g, box) <= |list| * ContentOf(gr)
    ensures (forall k :: 0 <= k < |list| ==> list[k] == g) ==> OverlapSum(gr, list, g, box) == 0
  {
    if |list| != 0 {
      var init := list[..|list| - 1];
      var last := list[|list| - 1];
      OverlapSumBounds(gr, init, g, box);
      var rest := OverlapSum(gr, init, g, box);
      var step := if last != g then IntersectionArea(gr, box(last)) else 0;
      assert OverlapSum(gr, list, g, box) == rest + step;
      IntersectionAreaBounds(gr, box(last));
      ContentNonNegative(gr);
      var c := ContentOf(gr);
      assert 0 <= step <= c;
      MulSucc(|init|, c);
      if forall k :: 0 <= k < |list| ==> list[k] == g {
        assert last == g;
        assert forall k :: 0 <= k < |init| ==> init[k] == g;
      }
    }
  }
}
