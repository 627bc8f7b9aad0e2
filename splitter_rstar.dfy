/** SplitterRStar.java: the R*-tree split of an overfull node.

    For each axis, and for each of the two corners, the items are sorted by
    that corner's coordinate on that axis; each ordering yields the candidate
    splits into a prefix and a suffix of at least `minSize` items. The
    ordering whose candidates have the least summed margin is kept, and its
    candidate with the least overlap (then least area) is returned. Both
    selections are Collections.min, which keeps the first minimum.

    `ListPair.marginSum` and `Comparators.areaPairComparator` are not part of
    this model: their keys are the parameters `marginSum` and `areaSum`. The
    overlap key is `Functions.OverlapListPair`. */
module SplitterRStar {
  import opened Wrappers
  import opened Zones
  import opened Functions
  import opened Sorting

  /** Which coordinate an ordering sorts by (SplitterRStar.java:78-93): the
      axis, and the high corner (`max`) or the low one. */
  datatype SortType = SortType(dim: nat, max: bool)

  // ---------------------------------------------------------------------------
  // DimComparator

  /** The coordinate DimComparator reads: coord2(dim) or coord1(dim). */
  function Key(z: Zone, st: SortType): int
    requires st.dim < |z.lo| && st.dim < |z.hi|
  {
    if st.max then z.hi[st.dim] else z.lo[st.dim]
  }

  /** `DimComparator.compare` (SplitterRStar.java:29-37): Float.compareTo on
      the chosen coordinate, -1, 0 or 1. */
  function Compare(a: Zone, b: Zone, st: SortType): (c: int)
    requires st.dim < |a.lo| && st.dim < |a.hi| && st.dim < |b.lo| && st.dim < |b.hi|
    ensures -1 <= c <= 1
    ensures c < 0 <==> Key(a, st) < Key(b, st)
    ensures c == 0 <==> Key(a, st) == Key(b, st)
  {
    var x := Key(a, st);
    var y := Key(b, st);
    if x < y then -1 else if x == y then 0 else 1
  }

  /** The comparator obeys Java's Comparator contract: it is antisymmetric
      and transitive, so Collections.sort is well defined on it. */
  lemma CompareContract(a: Zone, b: Zone, c: Zone, st: SortType)
    requires st.dim < |a.lo| && st.dim < |a.hi| && st.dim < |b.lo| && st.dim < |b.hi|
    requires st.dim < |c.lo| && st.dim < |c.hi|
    ensures Compare(a, b, st) == -Compare(b, a, st)
    ensures Compare(a, b, st) <= 0 && Compare(b, c, st) <= 0 ==> Compare(a, c, st) <= 0
  {
  }

  /** The sort key of an item; axes beyond a box (which a uniform item list
      never asks for) read as 0. */
  function SortKey<T>(box: T -> Zone, st: SortType): T -> int {
    x => if st.dim < |box(x).lo| && st.dim < |box(x).hi| then Key(box(x), st) else 0
  }

  /** `sort` (SplitterRStar.java:123-128) with DimComparator(st). */
  function Ordering<T>(items: seq<T>, box: T -> Zone, st: SortType): seq<T> {
    StableSort(items, SortKey(box, st))
  }

  /** Each ordering is a permutation of the items, sorted by the compared
      coordinate, and uniform like them. */
  lemma OrderingProperties<T>(items: seq<T>, box: T -> Zone, st: SortType)
    requires |items| != 0 && UniformItems(items, box) && st.dim < Dim(box(items[0]))
    ensures |Ordering(items, box, st)| == |items|
    ensures multiset(Ordering(items, box, st)) == multiset(items)
    ensures UniformItems(Ordering(items, box, st), box)
    ensures Dim(box(Ordering(items, box, st)[0])) == Dim(box(items[0]))
    ensures forall i, j :: 0 <= i < j < |items| ==>
      Compare(box(Ordering(items, box, st)[i]), box(Ordering(items, box, st)[j]), st) <= 0
  {
    var o := Ordering(items, box, st);
    StableSortProperties(items, SortKey(box, st));
    forall k | 0 <= k < |o|
      ensures Valid(box(o[k])) && Dim(box(o[k])) == Dim(box(items[0]))
    {
      assert o[k] in multiset(items);
      var j :| 0 <= j < |items| && items[j] == o[k];
    }
  }

  // ---------------------------------------------------------------------------
  // Candidate splits

  /** Every split point i with minSize <= i <= n - minSize, as the pair
      (list[..i], list[i..]): n - 2 * minSize + 1 candidates. */
  function Candidates<T>(list: seq<T>, m: nat): seq<ListPair<T>> {
    if |list| + 1 < 2 * m then []
    else seq(|list| - 2 * m + 1, j requires 0 <= j < |list| - 2 * m + 1 => ListPair(list[..m + j], list[m + j..]))
  }

  /** The candidates are exactly the prefix/suffix splits of the list with at
      least m items on each side, in order of the split point. */
  lemma CandidatesProperties<T>(list: seq<T>, m: nat)
    ensures |list| + 1 >= 2 * m ==> |Candidates(list, m)| == |list| - 2 * m + 1
    ensures forall j :: 0 <= j < |Candidates(list, m)| ==>
      Candidates(list, m)[j].group1 + Candidates(list, m)[j].group2 == list
      && |Candidates(list, m)[j].group1| == m + j
      && |Candidates(list, m)[j].group2| >= m
    ensures forall i :: m <= i <= |list| - m ==>
      i - m < |Candidates(list, m)| && Candidates(list, m)[i - m] == ListPair(list[..i], list[i..])
  {
    forall j | 0 <= j < |Candidates(list, m)|
      ensures Candidates(list, m)[j].group1 + Candidates(list, m)[j].group2 == list
    {
      assert list[..m + j] + list[m + j..] == list;
    }
    forall i | m <= i <= |list| - m
      ensures i - m < |Candidates(list, m)| && Candidates(list, m)[i - m] == ListPair(list[..i], list[i..])
    {
      assert m + (i - m) == i;
    }
  }

  /** With minSize at least 1, every candidate of a uniform list is a pair of
      two non-empty groups the overlap key is defined on. */
  lemma CandidatesWellFormed<T>(list: seq<T>, m: nat, box: T -> Zone)
    requires m >= 1 && UniformItems(list, box)
    ensures forall j :: 0 <= j < |Candidates(list, m)| ==> WellFormedPair(Candidates(list, m)[j], box)
  {
    CandidatesProperties(list, m);
  }

  /** `getPairs` with the loop running to i <= n - minSize, so that a group
      of exactly minSize items may come second as well as first (see
      GetPairsAsWritten). The list's initial capacity n - 2 * minSize + 1 is
      rejected by ArrayList when negative. */
  method GetPairs<T>(minSize: nat, list: seq<T>) returns (r: Result<seq<ListPair<T>>>)
    ensures r.Err? <==> |list| + 1 < 2 * minSize
    ensures r.Err? ==> r.error == IllegalArgument
    ensures r.Ok? ==> r.value == Candidates(list, minSize)
  {
    if |list| - 2 * minSize + 1 < 0 {
      return Err(IllegalArgument);
    }
    var pairs: seq<ListPair<T>> := [];
    for i := minSize to |list| - minSize + 1
      invariant |pairs| == i - minSize
      invariant forall j :: 0 <= j < |pairs| ==> pairs[j] == ListPair(list[..minSize + j], list[minSize + j..])
    {
      pairs := pairs + [ListPair(list[..i], list[i..])];
    }
    return Ok(pairs);
  }

  /** The pairs `getPairs` builds as written: split points
      minSize <= i < n - minSize. */
  function PairsAsWritten<T>(list: seq<T>, m: nat): seq<ListPair<T>> {
    if |list| < 2 * m then []
    else seq(|list| - 2 * m, j requires 0 <= j < |list| - 2 * m => ListPair(list[..m + j], list[m + j..]))
  }

  /** `getPairs` as written (SplitterRStar.java:112-121). */
  method GetPairsAsWritten<T>(minSize: nat, list: seq<T>) returns (r: Result<seq<ListPair<T>>>)
    ensures r.Err? <==> |list| + 1 < 2 * minSize
    ensures r.Err? ==> r.error == IllegalArgument
    ensures r.Ok? ==> r.value == PairsAsWritten(list, minSize)
  {
    if |list| - 2 * minSize + 1 < 0 {
      return Err(IllegalArgument);
    }
    var pairs: seq<ListPair<T>> := [];
    var i := minSize;
    while i < |list| - minSize
      invariant minSize <= i <= |list|
      invariant |list| >= 2 * minSize ==> i <= |list| - minSize
      invariant |list| < 2 * minSize ==> i == minSize
      invariant |pairs| == i - minSize
      invariant forall j :: 0 <= j < |pairs| ==> pairs[j] == ListPair(list[..minSize + j], list[minSize + j..])
    {
      pairs := pairs + [ListPair(list[..i], list[i..])];
      i := i + 1;
    }
    return Ok(pairs);
  }

  /** As written, the candidate list is the intended one without its last
      split: the one whose second group has exactly minSize items. */
  lemma PairsAsWrittenDropsLast<T>(list: seq<T>, m: nat)
    requires |list| >= 2 * m
    ensures |Candidates(list, m)| == |PairsAsWritten(list, m)| + 1
    ensures PairsAsWritten(list, m) == Candidates(list, m)[..|PairsAsWritten(list, m)|]
    ensures Candidates(list, m)[|PairsAsWritten(list, m)|] == ListPair(list[..|list| - m], list[|list| - m..])
  {
  }

  /** Two items with minSize 1: the split 1|1 is legal, but as written there
      is no candidate at all and the final Collections.min fails. */
  lemma PairsAsWrittenCounterexample()
    ensures PairsAsWritten([0, 1], 1) == []
    ensures Candidates([0, 1], 1) == [ListPair([0], [1])]
  {
    assert [0, 1][..1] == [0] && [0, 1][1..] == [1];
  }

  // ---------------------------------------------------------------------------
  // Margins

  /** The summed margins of a list of candidates. */
  function MarginTotal<T>(pairs: seq<ListPair<T>>, marginSum: ListPair<T> -> int): int {
    if |pairs| == 0 then 0
    else MarginTotal(pairs[..|pairs| - 1], marginSum) + marginSum(pairs[|pairs| - 1])
  }

  /** `marginValueSum` (SplitterRStar.java:105-110). */
  method MarginValueSum<T>(list: seq<ListPair<T>>, marginSum: ListPair<T> -> int) returns (sum: int)
    ensures sum == MarginTotal(list, marginSum)
  {
    sum := 0;
    for i := 0 to |list|
      invariant sum == MarginTotal(list[..i], marginSum)
    {
      assert list[..i + 1][..i] == list[..i];
      sum := sum + marginSum(list[i]);
    }
    assert list[..|list|] == list;
  }

  /** The margin total adds up over concatenation and is never negative when
      no single margin is. */
  lemma {:induction false} MarginTotalProperties<T>(a: seq<ListPair<T>>, b: seq<ListPair<T>>, marginSum: ListPair<T> -> int)
    ensures MarginTotal(a + b, marginSum) == MarginTotal(a, marginSum) + MarginTotal(b, marginSum)
    ensures (forall k :: 0 <= k < |a| ==> marginSum(a[k]) >= 0) ==> MarginTotal(a, marginSum) >= 0
  {
    if |b| != 0 {
      assert (a + b)[..|a + b| - 1] == a + b[..|b| - 1];
      MarginTotalProperties(a, b[..|b| - 1], marginSum);
    } else {
      assert a + b == a;
    }
    if |a| != 0 {
      MarginTotalProperties(a[..|a| - 1], [], marginSum);
    }
  }

  // ---------------------------------------------------------------------------
  // Collections.min

  /** A comparator key: compared first on `primary`, then on `secondary`
      (Comparators.compose of two keys). */
  datatype Cost = Cost(primary: int, secondary: int)

  predicate Less(a: Cost, b: Cost) {
    a.primary < b.primary || (a.primary == b.primary && a.secondary < b.secondary)
  }

  /** Collections.min: walks the list and replaces the candidate only by a
      strictly smaller element, so the result is the first minimum. */
  function FirstMinIndex(costs: seq<Cost>): (k: nat)
    requires |costs| != 0
    ensures k < |costs|
    ensures forall j :: 0 <= j < |costs| ==> !Less(costs[j], costs[k])
    ensures forall j :: 0 <= j < k ==> Less(costs[k], costs[j])
  {
    if |costs| == 1 then 0
    else
      var k := FirstMinIndex(costs[..|costs| - 1]);
      if Less(costs[|costs| - 1], costs[k]) then |costs| - 1 else k
  }

  // ---------------------------------------------------------------------------
  // split

  /** The sort types split builds, in order (SplitterRStar.java:60-67): axis
      0 by low, axis 0 by high, axis 1 by low, ... */
  function SortTypes(d: nat): seq<SortType> {
    if d == 0 then [] else SortTypes(d - 1) + [SortType(d - 1, false), SortType(d - 1, true)]
  }

  /** Exactly 2 * d sort types, the k-th being axis k / 2 by its high corner
      when k is odd; no two are equal, so no map entry is overwritten. */
  lemma {:induction false} SortTypesLayout(d: nat)
    ensures |SortTypes(d)| == 2 * d
    ensures forall k :: 0 <= k < 2 * d ==> SortTypes(d)[k] == SortType(k / 2, k % 2 == 1)
    ensures forall k, l :: 0 <= k < l < 2 * d ==> SortTypes(d)[k] != SortTypes(d)[l]
  {
    if d != 0 {
      SortTypesLayout(d - 1);
    }
  }

  /** The candidate lists of each sort type: the HashMap `map` of split. */
  function PairsFor<T>(items: seq<T>, m: nat, box: T -> Zone, st: SortType): seq<ListPair<T>> {
    Candidates(Ordering(items, box, st), m)
  }

  /** The margin key of each sort type, in sort-type order. */
  function Margins<T>(items: seq<T>, m: nat, box: T -> Zone, marginSum: ListPair<T> -> int): seq<Cost>
    requires |items| != 0
  {
    var types := SortTypes(Dim(box(items[0])));
    seq(|types|, k requires 0 <= k < |types| => Cost(MarginTotal(PairsFor(items, m, box, types[k]), marginSum), 0))
  }

  /** The key of `comparator` (SplitterRStar.java:42-45): overlap, then
      area. */
  function PairCost<T>(p: ListPair<T>, box: T -> Zone, areaSum: ListPair<T> -> int): Cost
    requires WellFormedPair(p, box)
  {
    Cost(OverlapListPair(p, box), areaSum(p))
  }

  function PairCosts<T>(pairs: seq<ListPair<T>>, box: T -> Zone, areaSum: ListPair<T> -> int): seq<Cost>
    requires forall j :: 0 <= j < |pairs| ==> WellFormedPair(pairs[j], box)
  {
    seq(|pairs|, j requires 0 <= j < |pairs| => PairCost(pairs[j], box, areaSum))
  }

  /** The index of the sort type with the least margin total. */
  function BestSortType<T>(items: seq<T>, m: nat, box: T -> Zone, marginSum: ListPair<T> -> int): (k: nat)
    requires |items| != 0 && UniformItems(items, box)
    ensures k < 2 * Dim(box(items[0]))
  {
    SortTypesLayout(Dim(box(items[0])));
    FirstMinIndex(Margins(items, m, box, marginSum))
  }

  /** `leastMarginSumSortType` (SplitterRStar.java:72). */
  function ChosenType<T>(items: seq<T>, m: nat, box: T -> Zone, marginSum: ListPair<T> -> int): (st: SortType)
    requires |items| != 0 && UniformItems(items, box)
    ensures st.dim < Dim(box(items[0]))
  {
    var d := Dim(box(items[0]));
    SortTypesLayout(d);
    SortTypes(d)[BestSortType(items, m, box, marginSum)]
  }

  /** The candidates of the chosen ordering are all well formed, and each
      splits that ordering, a permutation of the items. */
  lemma ChosenPairsWellFormed<T>(items: seq<T>, m: nat, box: T -> Zone, marginSum: ListPair<T> -> int)
    requires m >= 1 && |items| != 0 && UniformItems(items, box)
    ensures var pairs := PairsFor(items, m, box, ChosenType(items, m, box, marginSum));
      forall j :: 0 <= j < |pairs| ==> WellFormedPair(pairs[j], box)
  {
    var st := ChosenType(items, m, box, marginSum);
    OrderingProperties(items, box, st);
    CandidatesWellFormed(Ordering(items, box, st), m, box);
  }

  /** The position of the pair `Collections.min(pairs, comparator)` picks
      (SplitterRStar.java:75). */
  function ChosenIndex<T>(items: seq<T>, m: nat, box: T -> Zone,
                          marginSum: ListPair<T> -> int, areaSum: ListPair<T> -> int): (i: nat)
    requires m >= 1 && |items| != 0 && UniformItems(items, box)
    requires |PairsFor(items, m, box, ChosenType(items, m, box, marginSum))| != 0
    ensures i < |PairsFor(items, m, box, ChosenType(items, m, box, marginSum))|
  {
    ChosenPairsWellFormed(items, m, box, marginSum);
    FirstMinIndex(PairCosts(PairsFor(items, m, box, ChosenType(items, m, box, marginSum)), box, areaSum))
  }

  /** What `split` returns (SplitterRStar.java:48-76). */
  function SplitResult<T>(items: seq<T>, m: nat, box: T -> Zone,
                          marginSum: ListPair<T> -> int, areaSum: ListPair<T> -> int): Result<ListPair<T>>
    requires m >= 1 && UniformItems(items, box)
  {
    if |items| == 0 || |items| + 1 < 2 * m then Err(IllegalArgument)
    else
      var pairs := PairsFor(items, m, box, ChosenType(items, m, box, marginSum));
      if |pairs| == 0 then Err(NoSuchElement)
      else Ok(pairs[ChosenIndex(items, m, box, marginSum, areaSum)])
  }

  /** The loop of `split` (SplitterRStar.java:57-68): for each axis of the
      first item, the two sort types are added to `sortTypes` and their
      candidate lists put into the map, here `byType`, aligned with
      `sortTypes`. The first getPairs that fails ends it. */
  method BuildCandidates<T>(items: seq<T>, minSize: nat, box: T -> Zone)
    returns (r: Result<(seq<SortType>, seq<seq<ListPair<T>>>)>)
    requires |items| != 0 && UniformItems(items, box)
    ensures r.Err? <==> |items| + 1 < 2 * minSize
    ensures r.Err? ==> r.error == IllegalArgument
    ensures r.Ok? ==> r.value.0 == SortTypes(Dim(box(items[0]))) && |r.value.1| == |r.value.0|
    ensures r.Ok? ==> forall k :: 0 <= k < |r.value.1| ==>
      r.value.1[k] == PairsFor(items, minSize, box, r.value.0[k])
  {
    var d := Dim(box(items[0]));
    assert d > 0;
    var sortTypes: seq<SortType> := [];
    var byType: seq<seq<ListPair<T>>> := [];
    for i := 0 to d
      invariant sortTypes == SortTypes(i)
      invariant i > 0 ==> |items| + 1 >= 2 * minSize
      invariant |byType| == |sortTypes|
      invariant forall k :: 0 <= k < |byType| ==> byType[k] == PairsFor(items, minSize, box, sortTypes[k])
    {
      var minType := SortType(i, false);
      var sortedMin := Sort(items, SortKey(box, minType));
      StableSortProperties(items, SortKey(box, minType));
      var pairsMin := GetPairs(minSize, sortedMin);
      if pairsMin.Err? {
        return Err(pairsMin.error);
      }
      var maxType := SortType(i, true);
      var sortedMax := Sort(items, SortKey(box, maxType));
      StableSortProperties(items, SortKey(box, maxType));
      var pairsMax := GetPairs(minSize, sortedMax);
      assert pairsMin.value == PairsFor(items, minSize, box, minType);
      assert pairsMax.value == PairsFor(items, minSize, box, maxType);
      ghost var prev := byType;
      sortTypes := sortTypes + [minType, maxType];
      byType := byType + [pairsMin.value, pairsMax.value];
      assert forall k :: 0 <= k < |prev| ==> byType[k] == prev[k];
    }
    return Ok((sortTypes, byType));
  }

  /** The margin key of every sort type: `marginValueSum` of its candidate
      list, as `marginSumComparator` (SplitterRStar.java:95-103) reads it. */
  method MarginsOf<T>(byType: seq<seq<ListPair<T>>>, marginSum: ListPair<T> -> int) returns (margins: seq<Cost>)
    ensures |margins| == |byType|
    ensures forall k :: 0 <= k < |byType| ==> margins[k] == Cost(MarginTotal(byType[k], marginSum), 0)
  {
    margins := [];
    for k := 0 to |byType|
      invariant |margins| == k
      invariant forall j :: 0 <= j < k ==> margins[j] == Cost(MarginTotal(byType[j], marginSum), 0)
    {
      var s := MarginValueSum(byType[k], marginSum);
      margins := margins + [Cost(s, 0)];
    }
  }

  /** `split` (SplitterRStar.java:48-76): the orderings and their candidate
      lists are built axis by axis, the margin totals computed, and the two
      first-minimum selections made. */
  method Split<T>(items: seq<T>, minSize: nat, box: T -> Zone,
                  marginSum: ListPair<T> -> int, areaSum: ListPair<T> -> int)
    returns (r: Result<ListPair<T>>)
    requires minSize >= 1 && UniformItems(items, box)
    ensures r == SplitResult(items, minSize, box, marginSum, areaSum)
  {
    if |items| == 0 {
      return Err(IllegalArgument);
    }
    var built := BuildCandidates(items, minSize, box);
    if built.Err? {
      return Err(built.error);
    }
    var sortTypes := built.value.0;
    var byType := built.value.1;
    var margins := MarginsOf(byType, marginSum);
    assert margins == Margins(items, minSize, box, marginSum);
    var best := FirstMinIndex(margins);
    assert sortTypes[best] == ChosenType(items, minSize, box, marginSum);
    var pairs := byType[best];
    if |pairs| == 0 {
      return Err(NoSuchElement);
    }
    ChosenPairsWellFormed(items, minSize, box, marginSum);
    return Ok(pairs[FirstMinIndex(PairCosts(pairs, box, areaSum))]);
  }

  /** The failures: an empty list or fewer than 2 * minSize - 1 items give
      IllegalArgument, exactly 2 * minSize - 1 items leave no candidate for
      Collections.min; otherwise the split divides the chosen ordering, a
      permutation of the items, into two groups of at least minSize items. */
  lemma SplitOutcome<T>(items: seq<T>, m: nat, box: T -> Zone,
                        marginSum: ListPair<T> -> int, areaSum: ListPair<T> -> int)
    requires m >= 1 && UniformItems(items, box)
    ensures SplitResult(items, m, box, marginSum, areaSum).Ok? <==> |items| >= 2 * m
    ensures |items| == 0 || |items| + 1 < 2 * m ==>
      SplitResult(items, m, box, marginSum, areaSum) == Err(IllegalArgument)
    ensures |items| != 0 && |items| + 1 == 2 * m ==>
      SplitResult(items, m, box, marginSum, areaSum) == Err(NoSuchElement)
    ensures SplitResult(items, m, box, marginSum, areaSum).Ok? ==>
      var p := SplitResult(items, m, box, marginSum, areaSum).value;
      p.group1 + p.group2 == Ordering(items, box, ChosenType(items, m, box, marginSum))
      && multiset(p.group1 + p.group2) == multiset(items)
      && |p.group1| >= m && |p.group2| >= m && |p.group1| + |p.group2| == |items|
  {
    if |items| != 0 && |items| + 1 >= 2 * m {
      var st := ChosenType(items, m, box, marginSum);
      var o := Ordering(items, box, st);
      OrderingProperties(items, box, st);
      CandidatesProperties(o, m);
    }
  }

  /** The ordering chosen: the sort type with the least margin total, the
      first such one on ties. */
  lemma SplitChoosesLeastMargin<T>(items: seq<T>, m: nat, box: T -> Zone, marginSum: ListPair<T> -> int)
    requires |items| != 0 && UniformItems(items, box)
    ensures |SortTypes(Dim(box(items[0])))| == 2 * Dim(box(items[0]))
    ensures ChosenType(items, m, box, marginSum) == SortTypes(Dim(box(items[0])))[BestSortType(items, m, box, marginSum)]
    ensures var types := SortTypes(Dim(box(items[0])));
      var best := BestSortType(items, m, box, marginSum);
      forall k :: 0 <= k < |types| ==>
        MarginTotal(PairsFor(items, m, box, types[best]), marginSum)
          <= MarginTotal(PairsFor(items, m, box, types[k]), marginSum)
    ensures var types := SortTypes(Dim(box(items[0])));
      var best := BestSortType(items, m, box, marginSum);
      forall k :: 0 <= k < best ==>
        MarginTotal(PairsFor(items, m, box, types[best]), marginSum)
          < MarginTotal(PairsFor(items, m, box, types[k]), marginSum)
  {
    SortTypesLayout(Dim(box(items[0])));
    var types := SortTypes(Dim(box(items[0])));
    var margins := Margins(items, m, box, marginSum);
    assert forall k :: 0 <= k < |types| ==>
      margins[k] == Cost(MarginTotal(PairsFor(items, m, box, types[k]), marginSum), 0);
  }

  /** The pair returned is a candidate of the chosen ordering: there is at
      least one once the items number 2 * minSize or more. */
  lemma SplitReturnsChosenCandidate<T>(items: seq<T>, m: nat, box: T -> Zone,
                                       marginSum: ListPair<T> -> int, areaSum: ListPair<T> -> int)
    requires m >= 1 && UniformItems(items, box) && |items| >= 2 * m
    ensures var pairs := PairsFor(items, m, box, ChosenType(items, m, box, marginSum));
      |pairs| != 0 && forall j :: 0 <= j < |pairs| ==> WellFormedPair(pairs[j], box)
    ensures var pairs := PairsFor(items, m, box, ChosenType(items, m, box, marginSum));
      SplitResult(items, m, box, marginSum, areaSum) == Ok(pairs[ChosenIndex(items, m, box, marginSum, areaSum)])
  {
    ChosenPairsWellFormed(items, m, box, marginSum);
    var st := ChosenType(items, m, box, marginSum);
    OrderingProperties(items, box, st);
    CandidatesProperties(Ordering(items, box, st), m);
  }

  /** That candidate has the least overlap, then least area, of all the
      chosen ordering's candidates, and is the first such in split-point
      order. */
  lemma SplitChoosesLeastOverlap<T>(items: seq<T>, m: nat, box: T -> Zone,
                                    marginSum: ListPair<T> -> int, areaSum: ListPair<T> -> int,
                                    pairs: seq<ListPair<T>>, i: nat)
    requires m >= 1 && UniformItems(items, box) && |items| >= 2 * m
    requires pairs == PairsFor(items, m, box, ChosenType(items, m, box, marginSum))
    requires |pairs| != 0 && i == ChosenIndex(items, m, box, marginSum, areaSum)
    ensures forall j :: 0 <= j < |pairs| ==> WellFormedPair(pairs[j], box)
    ensures forall j :: 0 <= j < |pairs| ==> !Less(PairCost(pairs[j], box, areaSum), PairCost(pairs[i], box, areaSum))
    ensures forall j :: 0 <= j < i ==> Less(PairCost(pairs[i], box, areaSum), PairCost(pairs[j], box, areaSum))
  {
    ChosenPairsWellFormed(items, m, box, marginSum);
    LeastPairCost(pairs, box, areaSum, i);
  }

  /** The first minimum of the pair costs is a pair of least cost, and every
      earlier pair costs strictly more. */
  lemma LeastPairCost<T>(pairs: seq<ListPair<T>>, box: T -> Zone, areaSum: ListPair<T> -> int, i: nat)
    requires forall j :: 0 <= j < |pairs| ==> WellFormedPair(pairs[j], box)
    requires |pairs| != 0 && i == FirstMinIndex(PairCosts(pairs, box, areaSum))
    ensures i < |pairs|
    ensures forall j :: 0 <= j < |pairs| ==> !Less(PairCost(pairs[j], box, areaSum), PairCost(pairs[i], box, areaSum))
    ensures forall j :: 0 <= j < i ==> Less(PairCost(pairs[i], box, areaSum), PairCost(pairs[j], box, areaSum))
  {
    var costs := PairCosts(pairs, box, areaSum);
    assert forall j :: 0 <= j < |pairs| ==> costs[j] == PairCost(pairs[j], box, areaSum);
  }

  /** The margin key of each sort type in `split` as written, where every
      candidate list comes from `getPairs` as written. */
  function MarginsAsWritten<T>(items: seq<T>, m: nat, box: T -> Zone, marginSum: ListPair<T> -> int): seq<Cost>
    requires |items| != 0
  {
    var types := SortTypes(Dim(box(items[0])));
    seq(|types|, k requires 0 <= k < |types| =>
      Cost(MarginTotal(PairsAsWritten(Ordering(items, box, types[k]), m), marginSum), 0))
  }

  /** The sort type `split` as written chooses: the first least margin key
      over the shorter candidate lists. */
  function ChosenTypeAsWritten<T>(items: seq<T>, m: nat, box: T -> Zone, marginSum: ListPair<T> -> int): (st: SortType)
    requires |items| != 0 && UniformItems(items, box)
    ensures st.dim < Dim(box(items[0]))
  {
    var d := Dim(box(items[0]));
    SortTypesLayout(d);
    SortTypes(d)[FirstMinIndex(MarginsAsWritten(items, m, box, marginSum))]
  }

  /** Every pair `getPairs` as written builds from an ordering is well formed:
      it is one of the intended candidates. */
  lemma PairsAsWrittenWellFormed<T>(items: seq<T>, m: nat, box: T -> Zone, st: SortType)
    requires m >= 1 && |items| != 0 && UniformItems(items, box) && st.dim < Dim(box(items[0]))
    ensures var pairs := PairsAsWritten(Ordering(items, box, st), m);
      forall j :: 0 <= j < |pairs| ==> WellFormedPair(pairs[j], box)
  {
    var o := Ordering(items, box, st);
    OrderingProperties(items, box, st);
    CandidatesWellFormed(o, m, box);
    if |o| >= 2 * m {
      PairsAsWrittenDropsLast(o, m);
    }
  }

  /** `split` as written (SplitterRStar.java:48-76 with the loop bound of
      line 114): the same steps over the candidate lists of
      `GetPairsAsWritten`. */
  function SplitAsWrittenResult<T>(items: seq<T>, m: nat, box: T -> Zone,
                                   marginSum: ListPair<T> -> int, areaSum: ListPair<T> -> int): Result<ListPair<T>>
    requires m >= 1 && UniformItems(items, box)
  {
    if |items| == 0 || |items| + 1 < 2 * m then Err(IllegalArgument)
    else
      var st := ChosenTypeAsWritten(items, m, box, marginSum);
      var pairs := PairsAsWritten(Ordering(items, box, st), m);
      if |pairs| == 0 then Err(NoSuchElement)
      else
        PairsAsWrittenWellFormed(items, m, box, st);
        Ok(pairs[FirstMinIndex(PairCosts(pairs, box, areaSum))])
  }

  /** As written, split succeeds only from 2 * minSize + 1 items on: at
      2 * minSize - 1 and 2 * minSize items every ordering has no candidate
      and Collections.min throws, although at 2 * minSize items the intended
      split succeeds. */
  lemma SplitAsWrittenOutcome<T>(items: seq<T>, m: nat, box: T -> Zone,
                                 marginSum: ListPair<T> -> int, areaSum: ListPair<T> -> int)
    requires m >= 1 && UniformItems(items, box)
    ensures SplitAsWrittenResult(items, m, box, marginSum, areaSum).Ok? <==> |items| >= 2 * m + 1
    ensures |items| == 0 || |items| + 1 < 2 * m ==>
      SplitAsWrittenResult(items, m, box, marginSum, areaSum) == Err(IllegalArgument)
    ensures |items| != 0 && 2 * m <= |items| + 1 <= 2 * m + 1 ==>
      SplitAsWrittenResult(items, m, box, marginSum, areaSum) == Err(NoSuchElement)
    ensures |items| == 2 * m ==> SplitResult(items, m, box, marginSum, areaSum).Ok?
  {
    if |items| != 0 && |items| + 1 >= 2 * m {
      var st := ChosenTypeAsWritten(items, m, box, marginSum);
      OrderingProperties(items, box, st);
      assert |PairsAsWritten(Ordering(items, box, st), m)| == if |items| < 2 * m then 0 else |items| - 2 * m;
    }
    if |items| == 2 * m {
      SplitOutcome(items, m, box, marginSum, areaSum);
    }
  }

  /** A pair split returns as written divides the chosen ordering, with more
      than minSize items in its second group: the split with exactly minSize
      there is never a candidate. */
  lemma SplitAsWrittenPair<T>(items: seq<T>, m: nat, box: T -> Zone,
                              marginSum: ListPair<T> -> int, areaSum: ListPair<T> -> int)
    requires m >= 1 && UniformItems(items, box)
    requires SplitAsWrittenResult(items, m, box, marginSum, areaSum).Ok?
    ensures var p := SplitAsWrittenResult(items, m, box, marginSum, areaSum).value;
      p.group1 + p.group2 == Ordering(items, box, ChosenTypeAsWritten(items, m, box, marginSum))
      && |p.group1| >= m && |p.group2| > m
  {
    var st := ChosenTypeAsWritten(items, m, box, marginSum);
    OrderingProperties(items, box, st);
  }
}
