/**
 * benchmark.py `BenchmarkLab`: the algorithm pairs the lab times against each
 * other (bubble sort vs merge sort, linear vs binary search, nested-loop vs
 * sliding-window block selection), modelled without the timing.
 */
module Benchmark {
  import opened Common
  import opened Sorting
  import Searching
  import opened RoomSelection

  /** `merge_sort` on plain integers: a sorted permutation of the input. */
  function MergeSortInts(arr: seq<int>): (r: seq<int>)
    ensures SortedBy(r, Id) && multiset(r) == multiset(arr)
  {
    MergeSort(arr, Id)
  }

  /**
   * One pass of the inner loop over positions `0..m`: adjacent out-of-order
   * pairs are swapped, which carries the largest of `a[0..m]` to position `m`
   * and leaves the rest of the sequence alone.
   */
  method BubblePass(a: seq<int>, m: int) returns (b: seq<int>)
    requires 0 <= m < |a|
    requires forall p, q :: 0 <= p <= m < q < |a| ==> a[p] <= a[q]
    ensures |b| == |a| && multiset(b) == multiset(a)
    ensures forall q :: m < q < |a| ==> b[q] == a[q]
    ensures forall p :: 0 <= p <= m ==> b[p] <= b[m]
    ensures forall p, q :: 0 <= p <= m < q < |a| ==> b[p] <= b[q]
  {
    b := a;
    var j := 0;
    while j < m
      invariant 0 <= j <= m && |b| == |a|
      invariant multiset(b) == multiset(a)
      invariant forall q :: m < q < |a| ==> b[q] == a[q]
      invariant forall p, q :: 0 <= p <= m < q < |a| ==> b[p] <= b[q]
      invariant forall p :: 0 <= p < j ==> b[p] <= b[j]
    {
      PassStep(a, b, m, j);
      b := OrderPair(b, j);
      j := j + 1;
    }
  }

  /** One compare-and-swap keeps the pass's invariant and carries the prefix maximum one place on. */
  lemma PassStep(a: seq<int>, b: seq<int>, m: int, j: int)
    requires 0 <= j < m < |a| && |b| == |a|
    requires forall q :: m < q < |a| ==> b[q] == a[q]
    requires forall p, q :: 0 <= p <= m < q < |a| ==> b[p] <= b[q]
    requires forall p :: 0 <= p < j ==> b[p] <= b[j]
    ensures var c := OrderPair(b, j);
            && (forall q :: m < q < |a| ==> c[q] == a[q])
            && (forall p, q :: 0 <= p <= m < q < |a| ==> c[p] <= c[q])
            && (forall p :: 0 <= p <= j ==> c[p] <= c[j + 1])
  {
  }

  /**
   * `if arr[j] > arr[j+1]: swap`: afterwards the pair is in order, holds the
   * same two values, and nothing else moved.
   */
  function OrderPair(b: seq<int>, j: int): (c: seq<int>)
    requires 0 <= j < |b| - 1
    ensures |c| == |b| && multiset(c) == multiset(b)
    ensures c[j] <= c[j + 1]
    ensures (c[j] == b[j] && c[j + 1] == b[j + 1]) || (c[j] == b[j + 1] && c[j + 1] == b[j])
    ensures forall p :: 0 <= p < |b| && p != j && p != j + 1 ==> c[p] == b[p]
  {
    if b[j] > b[j + 1] then b[j := b[j + 1]][j + 1 := b[j]] else b
  }

  /**
   * `bubble_sort` on a copy of `arr` (the argument is a value here, so it
   * cannot be modified). The result is sorted, a permutation of the input,
   * and therefore exactly what `merge_sort` returns.
   */
  method BubbleSort(arr: seq<int>) returns (r: seq<int>)
    ensures SortedBy(r, Id) && multiset(r) == multiset(arr)
    ensures r == MergeSortInts(arr)
  {
    var n := |arr|;
    var a := arr;
    var i := 0;
    while i < n
      invariant 0 <= i <= n && |a| == n
      invariant multiset(a) == multiset(arr)
      invariant forall p, q :: n - i <= p < q < n ==> a[p] <= a[q]
      invariant forall p, q :: 0 <= p < n - i <= q < n ==> a[p] <= a[q]
    {
      var m := n - i - 1;
      a := BubblePass(a, m);
      i := i + 1;
    }
    assert SortedBy(a, Id);
    SortedPermutationUnique(a, MergeSortInts(arr));
    r := a;
  }

  /** `linear_search`: True exactly when `target` occurs in `arr`. */
  method LinearSearch(arr: seq<int>, target: int) returns (found: bool)
    ensures found <==> target in arr
  {
    var i := 0;
    while i < |arr|
      invariant 0 <= i <= |arr|
      invariant target !in arr[..i]
    {
      if arr[i] == target {
        return true;
      }
      assert arr[..i + 1] == arr[..i] + [arr[i]];
      i := i + 1;
    }
    assert arr[..i] == arr;
    return false;
  }

  /** `binary_search`: the same loop as services.py `binary_search_int`. */
  method BinarySearch(arr: seq<int>, target: int) returns (found: bool)
    ensures found ==> target in arr
    ensures SortedBy(arr, Id) ==> (found <==> target in arr)
  {
    found := Searching.BinarySearchInt(arr, target);
  }

  /** Scenario 2 of the lab: on sorted data both searches give the same answer. */
  method CompareSearches(arr: seq<int>, target: int) returns (linear: bool, binary: bool)
    requires SortedBy(arr, Id)
    ensures linear == binary
    ensures linear <==> target in arr
  {
    linear := LinearSearch(arr, target);
    binary := BinarySearch(arr, target);
  }

  /**
   * `nested_loop_find`: `[]` when `arr` is shorter than `k`, otherwise the
   * first length-`k` window of least spread (no sortedness is assumed).
   */
  method NestedLoopFind(arr: seq<int>, k: int) returns (window: seq<int>)
    requires k >= 1
    ensures |arr| < k ==> window == []
    ensures |arr| >= k ==> exists i :: IsFirstMinimalWindow(arr, k, i) && window == arr[i..i + k]
  {
    var n := |arr|;
    window := [];
    var best := -1;
    var minDiff := 0;
    var i := 0;
    while i < n - k + 1
      invariant 0 <= i && (n >= k ==> i <= n - k + 1) && (n < k ==> i == 0)
      invariant best == -1 <==> i == 0
      invariant best == -1 ==> window == []
      invariant best != -1 ==> NoEarlierAsTight(arr, k, best) && best < i
      invariant best != -1 ==> minDiff == Spread(arr, best, k) && window == arr[best..best + k]
      invariant forall j :: 0 <= j < i ==> minDiff <= Spread(arr, j, k)
    {
      var current := arr[i..i + k];
      var diff := current[|current| - 1] - current[0];
      assert diff == Spread(arr, i, k);
      if best == -1 || diff < minDiff {
        minDiff := diff;
        window := current;
        best := i;
      }
      i := i + 1;
    }
    if n >= k {
      assert IsFirstMinimalWindow(arr, k, best);
    }
  }

  /**
   * `sliding_window_find`: the bounds `(i, i + k)` of the first length-`k`
   * window of least spread, or None (`[]` in the code) when `arr` is shorter
   * than `k`.
   */
  method SlidingWindowFind(arr: seq<int>, k: int) returns (r: Option<(int, int)>)
    requires k >= 1
    ensures r.None? <==> |arr| < k
    ensures r.Some? ==> r.value.1 == r.value.0 + k && IsFirstMinimalWindow(arr, k, r.value.0)
  {
    var n := |arr|;
    r := None;
    var minDiff := 0;
    var i := 0;
    while i < n - k + 1
      invariant 0 <= i && (n >= k ==> i <= n - k + 1) && (n < k ==> i == 0)
      invariant r.None? <==> i == 0
      invariant r.Some? ==> NoEarlierAsTight(arr, k, r.value.0) && r.value.0 < i && r.value.1 == r.value.0 + k
      invariant r.Some? ==> minDiff == Spread(arr, r.value.0, k)
      invariant forall j :: 0 <= j < i ==> minDiff <= Spread(arr, j, k)
    {
      var diff := arr[i + k - 1] - arr[i];
      if r.None? || diff < minDiff {
        minDiff := diff;
        r := Some((i, i + k));
      }
      i := i + 1;
    }
  }

  /** Scenario 3 of the lab: both selections pick the same window of `arr`. */
  method CompareWindowFinders(arr: seq<int>, k: int) returns (window: seq<int>, bounds: Option<(int, int)>)
    requires k >= 1
    ensures bounds.None? <==> window == []
    ensures bounds.Some? ==>
      && 0 <= bounds.value.0 <= bounds.value.1 <= |arr|
      && window == arr[bounds.value.0..bounds.value.1]
  {
    window := NestedLoopFind(arr, k);
    bounds := SlidingWindowFind(arr, k);
    if bounds.Some? {
      var i :| IsFirstMinimalWindow(arr, k, i) && window == arr[i..i + k];
      FirstMinimalWindowUnique(arr, k, i, bounds.value.0);
    }
  }
}
