/** The ordering step of SplitterRStar.sort (SplitterRStar.java:123-128): a
    copy of the items sorted by Collections.sort, which is stable. The
    specification is insertion into a sorted prefix, keeping equal keys in
    their original order; the method sorts an array copy in place. */
module Sorting {

  /** Non-decreasing by key. */
  predicate SortedBy<T>(s: seq<T>, key: T -> int) {
    forall i, j :: 0 <= i < j < |s| ==> key(s[i]) <= key(s[j])
  }

  /** Inserts `x` after every element whose key is at most x's. */
  function Insert<T>(s: seq<T>, x: T, key: T -> int): seq<T> {
    if |s| == 0 || key(s[|s| - 1]) <= key(x) then s + [x]
    else Insert(s[..|s| - 1], x, key) + [s[|s| - 1]]
  }

  /** Stable sort: each element in turn inserted into the sorted prefix. */
  function StableSort<T>(s: seq<T>, key: T -> int): seq<T> {
    if |s| == 0 then []
    else Insert(StableSort(s[..|s| - 1], key), s[|s| - 1], key)
  }

  /** The elements of `s`, in order, whose key is `v`. */
  function WithKey<T>(s: seq<T>, key: T -> int, v: int): seq<T> {
    if |s| == 0 then []
    else WithKey(s[..|s| - 1], key, v) + (if key(s[|s| - 1]) == v then [s[|s| - 1]] else [])
  }

  lemma WithKeyAppend<T>(s: seq<T>, y: T, key: T -> int, v: int)
    ensures WithKey(s + [y], key, v) == WithKey(s, key, v) + (if key(y) == v then [y] else [])
  {
    assert (s + [y])[..|s|] == s;
  }

  lemma {:induction false} InsertPermutes<T>(s: seq<T>, x: T, key: T -> int)
    ensures |Insert(s, x, key)| == |s| + 1
    ensures multiset(Insert(s, x, key)) == multiset(s) + multiset{x}
  {
    if |s| != 0 && key(s[|s| - 1]) > key(x) {
      var init := s[..|s| - 1];
      assert s == init + [s[|s| - 1]];
      InsertPermutes(init, x, key);
    }
  }

  lemma {:induction false} InsertSorted<T>(s: seq<T>, x: T, key: T -> int)
    requires SortedBy(s, key)
    ensures SortedBy(Insert(s, x, key), key)
  {
    if |s| != 0 && key(s[|s| - 1]) > key(x) {
      var init := s[..|s| - 1];
      var last := s[|s| - 1];
      assert SortedBy(init, key);
      InsertSorted(init, x, key);
      InsertPermutes(init, x, key);
      var ins := Insert(init, x, key);
      forall k | 0 <= k < |ins|
        ensures key(ins[k]) <= key(last)
      {
        assert ins[k] in multiset(init) + multiset{x};
        if ins[k] != x {
          assert ins[k] in init;
        }
      }
    }
  }

  lemma {:induction false} InsertWithKey<T>(s: seq<T>, x: T, key: T -> int, v: int)
    requires SortedBy(s, key)
    ensures WithKey(Insert(s, x, key), key, v) == WithKey(s, key, v) + (if key(x) == v then [x] else [])
  {
    if |s| != 0 && key(s[|s| - 1]) > key(x) {
      var init := s[..|s| - 1];
      var last := s[|s| - 1];
      assert SortedBy(init, key);
      var ins := Insert(init, x, key);
      assert Insert(s, x, key) == ins + [last];
      InsertWithKey(init, x, key, v);
      WithKeyAppend(ins, last, key, v);
      assert s == init + [last];
      WithKeyAppend(init, last, key, v);
      var lx := if key(x) == v then [x] else [];
      var ll := if key(last) == v then [last] else [];
      assert lx == [] || ll == [];
      assert WithKey(Insert(s, x, key), key, v) == WithKey(init, key, v) + lx + ll;
      assert WithKey(s, key, v) == WithKey(init, key, v) + ll;
    } else {
      assert Insert(s, x, key) == s + [x];
      WithKeyAppend(s, x, key, v);
    }
  }

  /** The sorted copy is a permutation of the input, sorted by key, and
      stable: the elements sharing any one key keep their input order. */
  lemma {:induction false} StableSortProperties<T>(s: seq<T>, key: T -> int)
    ensures |StableSort(s, key)| == |s|
    ensures multiset(StableSort(s, key)) == multiset(s)
    ensures SortedBy(StableSort(s, key), key)
    ensures forall v :: WithKey(StableSort(s, key), key, v) == WithKey(s, key, v)
  {
    if |s| != 0 {
      var init := s[..|s| - 1];
      var last := s[|s| - 1];
      StableSortProperties(init, key);
      InsertPermutes(StableSort(init, key), last, key);
      InsertSorted(StableSort(init, key), last, key);
      forall v
        ensures WithKey(StableSort(s, key), key, v) == WithKey(s, key, v)
      {
        InsertWithKey(StableSort(init, key), last, key, v);
        WithKeyAppend(init, last, key, v);
      }
      assert s == init + [last];
    }
  }

  /** A sorted input comes back unchanged. */
  lemma {:induction false} StableSortOfSorted<T>(s: seq<T>, key: T -> int)
    requires SortedBy(s, key)
    ensures StableSort(s, key) == s
  {
    if |s| != 0 {
      var init := s[..|s| - 1];
      assert SortedBy(init, key);
      StableSortOfSorted(init, key);
      assert s == init + [s[|s| - 1]];
    }
  }

  /** When x's key is below every key from position j on, and not below the
      key just before j, x is inserted at position j. */
  lemma {:induction false} InsertPosition<T>(pre: seq<T>, x: T, key: T -> int, j: nat)
    requires j <= |pre|
    requires j == 0 || key(pre[j - 1]) <= key(x)
    requires forall k :: j <= k < |pre| ==> key(pre[k]) > key(x)
    ensures Insert(pre, x, key) == pre[..j] + [x] + pre[j..]
  {
    if j < |pre| {
      var init := pre[..|pre| - 1];
      var last := pre[|pre| - 1];
      InsertPosition(init, x, key, j);
      assert init[..j] == pre[..j];
      assert init[j..] + [last] == pre[j..];
    } else {
      assert pre[..j] == pre && pre[j..] == [];
    }
  }

  /** The prefix with x placed at j and the rest shifted right is the
      insertion of x. */
  lemma InsertAt<T>(pre: seq<T>, x: T, key: T -> int, j: nat, s: seq<T>)
    requires j <= |pre| && |s| == |pre| + 1
    requires j == 0 || key(pre[j - 1]) <= key(x)
    requires forall k :: j <= k < |pre| ==> key(pre[k]) > key(x)
    requires forall k :: 0 <= k < j ==> s[k] == pre[k]
    requires s[j] == x
    requires forall k :: j < k < |s| ==> s[k] == pre[k - 1]
    ensures s == Insert(pre, x, key)
  {
    InsertPosition(pre, x, key, j);
    assert s == pre[..j] + [x] + pre[j..];
  }

  /** The shifting loop of one insertion step: the elements of the prefix
      a[..i] (`pre`) with keys larger than x's are moved one place right,
      from the end, leaving a gap at the returned position j. */
  method ShiftLarger<T>(a: array<T>, i: nat, x: T, key: T -> int, ghost pre: seq<T>) returns (j: nat)
    requires i < a.Length && |pre| == i
    requires forall k :: 0 <= k < i ==> a[k] == pre[k]
    modifies a
    ensures j <= i
    ensures forall k :: 0 <= k < j ==> a[k] == pre[k]
    ensures forall k :: j < k <= i ==> a[k] == pre[k - 1]
    ensures forall k :: i < k < a.Length ==> a[k] == old(a[k])
    ensures j == 0 || key(pre[j - 1]) <= key(x)
    ensures forall k :: j <= k < i ==> key(pre[k]) > key(x)
  {
    j := i;
    while j > 0 && key(a[j - 1]) > key(x)
      invariant 0 <= j <= i
      invariant forall k :: 0 <= k < j ==> a[k] == pre[k]
      invariant forall k :: j < k <= i ==> a[k] == pre[k - 1]
      invariant forall k :: i < k < a.Length ==> a[k] == old(a[k])
      invariant forall k :: j <= k < i ==> key(pre[k]) > key(x)
    {
      a[j] := a[j - 1];
      j := j - 1;
    }
  }

  /** One step of insertion sort: a[i] is moved left past the larger keys
      of the prefix a[..i], which ends up as the stable insertion of a[i]. */
  method InsertStep<T>(a: array<T>, i: nat, key: T -> int)
    requires i < a.Length
    modifies a
    ensures a[..i + 1] == Insert(old(a[..i]), old(a[i]), key)
    ensures forall k :: i < k < a.Length ==> a[k] == old(a[k])
  {
    ghost var pre := a[..i];
    var x := a[i];
    var j := ShiftLarger(a, i, x, key, pre);
    a[j] := x;
    InsertAt(pre, x, key, j, a[..i + 1]);
  }

  /** `sort`: the items are copied into an array (the new ArrayList) and
      sorted in place by insertion. */
  method Sort<T>(items: seq<T>, key: T -> int) returns (sorted: seq<T>)
    ensures sorted == StableSort(items, key)
  {
    var a := new T[|items|](k requires 0 <= k < |items| => items[k]);
    for i := 0 to a.Length
      invariant a[..i] == StableSort(items[..i], key)
      invariant forall k :: i <= k < a.Length ==> a[k] == items[k]
    {
      InsertStep(a, i, key);
      assert items[..i + 1][..i] == items[..i];
    }
    assert items[..a.Length] == items;
    sorted := a[..];
  }
}
