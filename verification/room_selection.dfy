/**
 * Minimal-spread room blocks: services.py `find_closest_rooms` picks `quantity`
 * rooms whose numbers are as close together as possible, scanning the
 * contiguous windows of the sorted id list.
 */
module RoomSelection {
  import opened Common
  import opened Sorting

  /** `window[-1] - window[0]` for the window of length `k` starting at `i`. */
  function Spread(s: seq<int>, i: int, k: int): int
    requires 1 <= k && 0 <= i && i + k <= |s|
  {
    s[i + k - 1] - s[i]
  }

  /**
   * The window starting at `i` has the least spread of all length-`k`
   * windows, and every earlier window is strictly wider (the scan keeps the
   * first minimum because it only replaces on `<`).
   */
  predicate IsFirstMinimalWindow(s: seq<int>, k: int, i: int)
    requires 1 <= k
  {
    && 0 <= i <= |s| - k
    && (forall j :: 0 <= j <= |s| - k ==> Spread(s, i, k) <= Spread(s, j, k))
    && (forall j :: 0 <= j < i ==> Spread(s, j, k) > Spread(s, i, k))
  }

  /** At most one window is the first minimal one. */
  lemma FirstMinimalWindowUnique(s: seq<int>, k: int, i: int, j: int)
    requires 1 <= k
    requires IsFirstMinimalWindow(s, k, i) && IsFirstMinimalWindow(s, k, j)
    ensures i == j
  {
    assert Spread(s, i, k) == Spread(s, j, k);
  }

  predicate StrictlyIncreasing(s: seq<int>) {
    forall i, j :: 0 <= i < j < |s| ==> s[i] < s[j]
  }

  /** Distinct integers in ascending order are at least one apart, so any `k` of them span `k - 1`. */
  lemma {:induction false} StrictSpreadAtLeast(s: seq<int>, i: int, k: int)
    requires StrictlyIncreasing(s)
    requires 1 <= k && 0 <= i && i + k <= |s|
    ensures Spread(s, i, k) >= k - 1
    decreases k
  {
    if k > 1 {
      StrictSpreadAtLeast(s, i, k - 1);
      assert s[i + k - 2] < s[i + k - 1];
    }
  }

  /** Every element occurs at most once. */
  lemma {:induction false} DistinctMultiplicity(s: seq<int>, x: int)
    requires Distinct(s)
    ensures multiset(s)[x] <= 1
    decreases |s|
  {
    if |s| > 0 {
      assert s == [s[0]] + s[1..];
      assert Distinct(s[1..]);
      DistinctMultiplicity(s[1..], x);
      if s[0] == x {
        assert x !in s[1..];
      }
    }
  }

  /** Two equal entries make an element occur at least twice. */
  lemma TwoOccurrences(s: seq<int>, i: int, j: int)
    requires 0 <= i < j < |s| && s[i] == s[j]
    ensures multiset(s)[s[i]] >= 2
  {
    assert s == s[..j] + [s[j]] + s[j + 1..];
    assert s[i] in s[..j];
    assert multiset(s) == multiset(s[..j]) + multiset{s[j]} + multiset(s[j + 1..]);
  }

  /** A sorted permutation of distinct integers is strictly increasing. */
  lemma SortedDistinctIsStrict(s: seq<int>, orig: seq<int>)
    requires SortedBy(s, Id) && multiset(s) == multiset(orig) && Distinct(orig)
    ensures StrictlyIncreasing(s)
  {
    forall i, j | 0 <= i < j < |s| ensures s[i] < s[j] {
      assert Id(s[i]) <= Id(s[j]);
      DistinctMultiplicity(orig, s[i]);
      if s[i] == s[j] {
        TwoOccurrences(s, i, j);
        assert false;
      }
    }
  }

  /** The id list after `available_ids.sort()`. */
  function SortIds(ids: seq<int>): (r: seq<int>)
    ensures multiset(r) == multiset(ids) && |r| == |ids|
    ensures SortedBy(r, Id)
  {
    MergeSort(ids, Id)
  }

  /** No window before `i` is as tight as the one at `i`. */
  predicate NoEarlierAsTight(s: seq<int>, k: int, i: int)
    requires 1 <= k
  {
    && 0 <= i <= |s| - k
    && forall j :: 0 <= j < i ==> Spread(s, j, k) > Spread(s, i, k)
  }

  /** Over distinct ids, a window of spread `k - 1` that no earlier window matches is the first minimal one. */
  lemma TightWindowIsOptimal(ids: seq<int>, orig: seq<int>, k: int, i: int)
    requires 1 <= k
    requires SortedBy(ids, Id) && multiset(ids) == multiset(orig) && Distinct(orig)
    requires NoEarlierAsTight(ids, k, i) && Spread(ids, i, k) <= k - 1
    ensures IsFirstMinimalWindow(ids, k, i)
  {
    SortedDistinctIsStrict(ids, orig);
    forall j | 0 <= j <= |ids| - k ensures Spread(ids, i, k) <= Spread(ids, j, k) {
      StrictSpreadAtLeast(ids, j, k);
    }
  }

  /**
   * What the scan has established when it ends: either it looked at every
   * window, or it stopped at one of spread `k - 1`. Either way, over distinct
   * ids, the kept window is the first minimal one.
   */
  lemma ScanConclusion(ids: seq<int>, orig: seq<int>, k: int, best: int, scannedAll: bool)
    requires 1 <= k
    requires SortedBy(ids, Id) && multiset(ids) == multiset(orig)
    requires NoEarlierAsTight(ids, k, best)
    requires scannedAll ==> forall j :: 0 <= j <= |ids| - k ==> Spread(ids, best, k) <= Spread(ids, j, k)
    requires !scannedAll ==> Spread(ids, best, k) <= k - 1
    ensures Distinct(orig) ==> IsFirstMinimalWindow(ids, k, best)
  {
    if !scannedAll && Distinct(orig) {
      TightWindowIsOptimal(ids, orig, k, best);
    }
  }

  /**
   * services.py `find_closest_rooms`. None exactly when fewer ids than asked
   * are available. Otherwise a contiguous run of `quantity` ids of the sorted
   * list, no earlier run being as tight; and when the ids are distinct (room
   * numbers are), the early stop at spread `quantity - 1` loses nothing: the
   * run is the first one of minimal spread.
   */
  method FindClosestRooms(availableIds: seq<int>, quantity: int) returns (r: Option<seq<int>>)
    requires quantity >= 1
    ensures r.None? <==> |availableIds| < quantity
    ensures r.Some? ==>
      exists i ::
        && NoEarlierAsTight(SortIds(availableIds), quantity, i)
        && r.value == SortIds(availableIds)[i..i + quantity]
        && (Distinct(availableIds) ==> IsFirstMinimalWindow(SortIds(availableIds), quantity, i))
  {
    var ids := SortIds(availableIds);
    if |ids| < quantity {
      return None;
    }
    var best, stopped := ScanWindows(ids, quantity);
    ScanConclusion(ids, availableIds, quantity, best, !stopped);
    r := Some(ids[best..best + quantity]);
    assert
      && NoEarlierAsTight(SortIds(availableIds), quantity, best)
      && r.value == SortIds(availableIds)[best..best + quantity]
      && (Distinct(availableIds) ==> IsFirstMinimalWindow(SortIds(availableIds), quantity, best));
  }

  /**
   * The scan loop of `find_closest_rooms` over the sorted ids: keep the first
   * window of least spread seen so far, and stop early at a window of spread
   * `k - 1`.
   */
  method ScanWindows(ids: seq<int>, k: int) returns (best: int, stopped: bool)
    requires 1 <= k <= |ids|
    ensures NoEarlierAsTight(ids, k, best)
    ensures !stopped ==> forall j :: 0 <= j <= |ids| - k ==> Spread(ids, best, k) <= Spread(ids, j, k)
    ensures stopped ==> Spread(ids, best, k) <= k - 1
  {
    var n := |ids|;
    // best == -1 plays the part of min_diff = float('inf')
    best := -1;
    var minDiff := 0;
    stopped := false;
    var i := 0;
    while i < n - k + 1
      invariant 0 <= i <= n - k + 1
      invariant best == -1 <==> i == 0
      invariant best != -1 ==> NoEarlierAsTight(ids, k, best) && best < i
      invariant best != -1 ==> minDiff == Spread(ids, best, k)
      invariant forall j :: 0 <= j < i ==> minDiff <= Spread(ids, j, k)
    {
      var diff := Spread(ids, i, k);
      if best == -1 || diff < minDiff {
        minDiff := diff;
        best := i;
      }
      if diff == k - 1 {
        stopped := true;
        return;
      }
      i := i + 1;
    }
  }
}
