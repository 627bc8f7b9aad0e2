/** Util.java: the minimum bounding rectangle of a collection, and the
    copy-then-edit list helpers the tree uses to rebuild node children.
    Lists are values, so "returns a fresh list and leaves the input alone"
    holds by construction. Java's `equals` (used by `removeAll`) and `!=`
    (identity, used by `replace`) are both Dafny equality here. */
module Util {
  import opened Wrappers
  import opened Zones

  // ---------------------------------------------------------------------------
  // mbr

  /** The left fold of `Zone.add` over the items (Util.java:22-26 names that
      as the meaning of `mbr`; LeafTest.testMbr checks it). */
  function MbrOf(zs: seq<Zone>): (r: Zone)
    requires |zs| != 0 && Uniform(zs)
    ensures Valid(r) && SameDim(r, zs[0])
  {
    if |zs| == 1 then zs[0]
    else
      var init := zs[..|zs| - 1];
      assert Uniform(init) && init[0] == zs[0];
      var m := MbrOf(init);
      UnionContainsBoth(m, zs[|zs| - 1]);
      Union(m, zs[|zs| - 1])
  }

  /** `mbr` (Util.java:43-70), seeded from the first item's corners rather
      than from Float.MAX_VALUE and Float.MIN_VALUE (see MbrAsWritten). The
      two arrays are updated axis by axis as each item is visited, and the
      result goes through the validating constructor. */
  method Mbr(items: seq<Zone>) returns (r: Result<Zone>)
    requires Uniform(items)
    ensures |items| == 0 ==> r == Err(IllegalArgument)
    ensures |items| != 0 ==> r == Ok(MbrOf(items))
  {
    if |items| == 0 {
      return Err(IllegalArgument);
    }
    var first := items[0];
    var d := |first.lo|;
    var mins := new int[d](j requires 0 <= j < d => first.lo[j]);
    var maxs := new int[d](j requires 0 <= j < d => first.hi[j]);
    assert items[..1] == [first];
    assert mins[..] == first.lo && maxs[..] == first.hi;
    var k := 1;
    while k < |items|
      invariant 1 <= k <= |items|
      invariant mins[..] == MbrOf(items[..k]).lo
      invariant maxs[..] == MbrOf(items[..k]).hi
    {
      var z := items[k];
      assert items[..k + 1][..k] == items[..k];
      Widen(mins, maxs, z, MbrOf(items[..k]));
      k := k + 1;
    }
    assert items[..k] == items;
    r := Create(mins[..], maxs[..]);
  }

  /** One item's pass of `mbr` (Util.java:60-67): each axis's low is lowered
      and high raised to cover the item, which turns the arrays holding
      `prev` into the union of `prev` and the item. */
  method Widen(mins: array<int>, maxs: array<int>, z: Zone, ghost prev: Zone)
    requires mins != maxs && SameDim(prev, z)
    requires mins[..] == prev.lo && maxs[..] == prev.hi
    modifies mins, maxs
    ensures mins[..] == Union(prev, z).lo && maxs[..] == Union(prev, z).hi
  {
    ghost var next := Union(prev, z);
    for i := 0 to mins.Length
      invariant forall j :: 0 <= j < i ==> mins[j] == next.lo[j] && maxs[j] == next.hi[j]
      invariant forall j :: i <= j < mins.Length ==> mins[j] == prev.lo[j] && maxs[j] == prev.hi[j]
    {
      if z.lo[i] < mins[i] {
        mins[i] := z.lo[i];
      }
      if z.hi[i] > maxs[i] {
        maxs[i] := z.hi[i];
      }
    }
    assert mins[..] == next.lo;
    assert maxs[..] == next.hi;
  }

  /** Every item lies within the mbr. */
  lemma {:induction false} MbrOfContains(zs: seq<Zone>, k: nat)
    requires |zs| != 0 && Uniform(zs) && k < |zs|
    ensures SameDim(zs[k], MbrOf(zs)) && Within(zs[k], MbrOf(zs))
  {
    if |zs| > 1 {
      var init := zs[..|zs| - 1];
      assert Uniform(init) && init[0] == zs[0];
      UnionContainsBoth(MbrOf(init), zs[|zs| - 1]);
      if k < |zs| - 1 {
        assert init[k] == zs[k];
        MbrOfContains(init, k);
      }
    }
  }

  /** The mbr is the least zone containing every item. */
  lemma {:induction false} MbrOfLeast(zs: seq<Zone>, c: Zone)
    requires |zs| != 0 && Uniform(zs) && SameDim(zs[0], c)
    requires forall k :: 0 <= k < |zs| ==> Within(zs[k], c)
    ensures Within(MbrOf(zs), c)
  {
    if |zs| > 1 {
      var init := zs[..|zs| - 1];
      assert Uniform(init) && init[0] == zs[0];
      assert forall k :: 0 <= k < |init| ==> init[k] == zs[k];
      MbrOfLeast(init, c);
      UnionIsLeast(MbrOf(init), zs[|zs| - 1], c);
    }
  }

  /** The mbr is tight: on every axis its low is some item's low and its high
      is some item's high. */
  lemma {:induction false} MbrOfTight(zs: seq<Zone>, i: nat)
    requires |zs| != 0 && Uniform(zs) && i < |zs[0].lo|
    ensures exists k :: 0 <= k < |zs| && MbrOf(zs).lo[i] == zs[k].lo[i]
    ensures exists k :: 0 <= k < |zs| && MbrOf(zs).hi[i] == zs[k].hi[i]
  {
    var last := |zs| - 1;
    if |zs| == 1 {
      assert MbrOf(zs).lo[i] == zs[0].lo[i] && MbrOf(zs).hi[i] == zs[0].hi[i];
    } else {
      var init := zs[..last];
      assert Uniform(init) && init[0] == zs[0];
      MbrOfTight(init, i);
      var kl :| 0 <= kl < |init| && MbrOf(init).lo[i] == init[kl].lo[i];
      var kh :| 0 <= kh < |init| && MbrOf(init).hi[i] == init[kh].hi[i];
      if zs[last].lo[i] < MbrOf(init).lo[i] {
        assert MbrOf(zs).lo[i] == zs[last].lo[i];
      } else {
        assert MbrOf(zs).lo[i] == zs[kl].lo[i];
      }
      if zs[last].hi[i] > MbrOf(init).hi[i] {
        assert MbrOf(zs).hi[i] == zs[last].hi[i];
      } else {
        assert MbrOf(zs).hi[i] == zs[kh].hi[i];
      }
    }
  }

  /** LeafTest.testMbr: the mbr of (0,1)-(3,5) and (1,2)-(4,6) is their
      `add`, (0,1)-(4,6). */
  lemma MbrOfExample()
    ensures MbrOf([Zone([0, 1], [3, 5]), Zone([1, 2], [4, 6])]) == Zone([0, 1], [4, 6])
  {
    var zs := [Zone([0, 1], [3, 5]), Zone([1, 2], [4, 6])];
    assert zs[..1] == [zs[0]];
    assert Union(zs[0], zs[1]).lo == [0, 1];
    assert Union(zs[0], zs[1]).hi == [4, 6];
  }

  /** Float.MAX_VALUE, the seed of `mins` (Util.java:53). */
  const FloatMax: int := 340282346638528859811704183484516925440

  /** The fold of `add` over the items, starting from a seed zone. */
  function SeededFold(zs: seq<Zone>, seed: Zone): (r: Zone)
    requires |seed.lo| == |seed.hi|
    requires Uniform(zs) && forall k :: 0 <= k < |zs| ==> SameDim(zs[k], seed)
    ensures SameDim(r, seed)
  {
    if |zs| == 0 then seed
    else
      var init := zs[..|zs| - 1];
      assert Uniform(init);
      assert forall k :: 0 <= k < |init| ==> init[k] == zs[k];
      var f := SeededFold(init, seed);
      assert SameDim(zs[|zs| - 1], seed);
      Union(f, zs[|zs| - 1])
  }

  /** `mbr` as written: `mins` starts at Float.MAX_VALUE and `maxs` at
      Float.MIN_VALUE (Util.java:52-58), which is the smallest POSITIVE float,
      not the most negative one. `floor` stands for that seed: any positive
      value, since the integer model has no smaller positive number. */
  function MbrAsWritten(zs: seq<Zone>, floor: int): (r: Zone)
    requires |zs| != 0 && Uniform(zs) && floor > 0
    ensures SameDim(r, zs[0])
  {
    var d := |zs[0].lo|;
    SeededFold(zs, Zone(seq(d, _ => FloatMax), seq(d, _ => floor)))
  }

  /** Folding from a seed is the union of the seed with the mbr. */
  lemma {:induction false} SeededFoldIsUnion(zs: seq<Zone>, seed: Zone)
    requires |seed.lo| == |seed.hi|
    requires |zs| != 0 && Uniform(zs) && forall k :: 0 <= k < |zs| ==> SameDim(zs[k], seed)
    ensures SeededFold(zs, seed) == Union(seed, MbrOf(zs))
  {
    var last := |zs| - 1;
    var init := zs[..last];
    assert Uniform(init);
    if |zs| == 1 {
      assert SeededFold(init, seed) == seed;
    } else {
      assert init[0] == zs[0];
      SeededFoldIsUnion(init, seed);
      var a := Union(Union(seed, MbrOf(init)), zs[last]);
      var b := Union(seed, Union(MbrOf(init), zs[last]));
      assert a.lo == b.lo;
      assert a.hi == b.hi;
    }
  }

  /** As written, the result agrees with the true mbr exactly when, on every
      axis, some item's high reaches the seed (and every low is at most
      Float.MAX_VALUE, which holds for every float). */
  lemma MbrAsWrittenAgreement(zs: seq<Zone>, floor: int)
    requires |zs| != 0 && Uniform(zs) && floor > 0
    requires forall k, i :: 0 <= k < |zs| && 0 <= i < |zs[k].lo| ==> zs[k].lo[i] <= FloatMax
    ensures MbrAsWritten(zs, floor) == MbrOf(zs) <==>
      forall i :: 0 <= i < |zs[0].lo| ==> MbrOf(zs).hi[i] >= floor
  {
    var d := |zs[0].lo|;
    var seed := Zone(seq(d, _ => FloatMax), seq(d, _ => floor));
    SeededFoldIsUnion(zs, seed);
    var m := MbrOf(zs);
    forall i | 0 <= i < d
      ensures m.lo[i] <= FloatMax
    {
      MbrOfTight(zs, i);
    }
    if forall i :: 0 <= i < d ==> m.hi[i] >= floor {
      assert Union(seed, m).lo == m.lo;
      assert Union(seed, m).hi == m.hi;
    } else {
      var i :| 0 <= i < d && m.hi[i] < floor;
      assert Union(seed, m).hi[i] != m.hi[i];
    }
  }

  /** The item (-2)-(-1) has mbr (-2)-(-1), but as written its high comes out
      as the positive seed. */
  lemma MbrAsWrittenCounterexample(floor: int)
    requires floor > 0
    ensures MbrOf([Zone([-2], [-1])]).hi == [-1]
    ensures MbrAsWritten([Zone([-2], [-1])], floor).hi == [floor]
  {
    var zs := [Zone([-2], [-1])];
    var seed := Zone(seq(1, _ => FloatMax), seq(1, _ => floor));
    assert zs[..0] == [];
    assert SeededFold(zs, seed) == Union(seed, zs[0]);
    assert Union(seed, zs[0]).hi == [floor];
  }

  // ---------------------------------------------------------------------------
  // List helpers

  /** `add` (Util.java:72-77): a copy of the list with the element appended. */
  function Add<T>(list: seq<T>, element: T): (r: seq<T>)
    ensures |r| == |list| + 1
    ensures r[..|list|] == list && r[|list|] == element
  {
    list + [element]
  }

  /** The elements of `list`, in order, that are not members of `elems`. */
  function Without<T(==)>(list: seq<T>, elems: seq<T>): seq<T> {
    if |list| == 0 then []
    else Without(list[..|list| - 1], elems)
         + (if list[|list| - 1] in elems then [] else [list[|list| - 1]])
  }

  /** `remove` (Util.java:79-83): `removeAll` on a copy, a filtering pass
      that keeps each element equal to no member of `elements`. */
  method Remove<T(==)>(list: seq<T>, elements: seq<T>) returns (result: seq<T>)
    ensures result == Without(list, elements)
  {
    result := [];
    for i := 0 to |list|
      invariant result == Without(list[..i], elements)
    {
      assert list[..i + 1][..i] == list[..i];
      if list[i] !in elements {
        result := result + [list[i]];
      }
    }
    assert list[..|list|] == list;
  }

  /** `replace` (Util.java:85-92): the elements other than `element`, in
      order, followed by the replacements. */
  method Replace<T(==)>(list: seq<T>, element: T, replacements: seq<T>) returns (result: seq<T>)
    ensures result == Without(list, [element]) + replacements
  {
    var kept := [];
    for i := 0 to |list|
      invariant kept == Without(list[..i], [element])
    {
      assert list[..i + 1][..i] == list[..i];
      if list[i] != element {
        kept := kept + [list[i]];
      }
    }
    assert list[..|list|] == list;
    result := kept + replacements;
  }

  /** Filtering distributes over concatenation, so the kept elements stay in
      their original order. */
  lemma {:induction false} WithoutConcat<T>(a: seq<T>, b: seq<T>, elems: seq<T>)
    ensures Without(a + b, elems) == Without(a, elems) + Without(b, elems)
  {
    if |b| != 0 {
      var last := |b| - 1;
      assert (a + b)[..|a + b| - 1] == a + b[..last];
      WithoutConcat(a, b[..last], elems);
    } else {
      assert a + b == a;
    }
  }

  /** An element survives exactly when it was in the list and is not one of
      the removed elements, with its multiplicity unchanged. */
  lemma {:induction false} WithoutMultiset<T>(list: seq<T>, elems: seq<T>)
    ensures forall x ::
      multiset(Without(list, elems))[x] == (if x in elems then 0 else multiset(list)[x])
    ensures forall x :: x in Without(list, elems) <==> x in list && x !in elems
  {
    if |list| != 0 {
      var init := list[..|list| - 1];
      WithoutMultiset(init, elems);
      assert list == init + [list[|list| - 1]];
    }
  }

  /** When nothing in the list is to be removed, the copy equals the list. */
  lemma {:induction false} WithoutNothing<T>(list: seq<T>, elems: seq<T>)
    requires forall k :: 0 <= k < |list| ==> list[k] !in elems
    ensures Without(list, elems) == list
  {
    if |list| != 0 {
      var init := list[..|list| - 1];
      WithoutNothing(init, elems);
      assert list == init + [list[|list| - 1]];
    }
  }

  /** The result of `replace` has |list| - occurrences(element) + |replacements|
      elements. */
  lemma {:induction false} ReplaceLength<T>(list: seq<T>, element: T, replacements: seq<T>)
    ensures |Without(list, [element]) + replacements| ==
      |list| - multiset(list)[element] + |replacements|
  {
    if |list| != 0 {
      var init := list[..|list| - 1];
      ReplaceLength(init, element, []);
      assert list == init + [list[|list| - 1]];
    }
  }
}
