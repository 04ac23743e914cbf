/**
 * The top-down merge sort that appears three times in the code base
 * (services.py `merge_sort` with a key, utils.py `merge_sort_by_price` built on
 * `_merge`, benchmark.py `merge_sort` on plain integers). It is modelled once,
 * over an integer key, on immutable sequences.
 */
module Sorting {
  import opened Common
  import opened Records

  /** Non-decreasing by `key`. */
  predicate SortedBy<T>(s: seq<T>, key: T -> int) {
    forall i, j :: 0 <= i < j < |s| ==> key(s[i]) <= key(s[j])
  }

  /** Every element's key is at least `k`. */
  predicate KeysAtLeast<T>(s: seq<T>, key: T -> int, k: int) {
    forall i :: 0 <= i < |s| ==> k <= key(s[i])
  }

  /** The elements whose key is exactly `k`, in their original order. */
  function WithKey<T>(s: seq<T>, key: T -> int, k: int): seq<T>
  {
    if |s| == 0 then []
    else (if key(s[0]) == k then [s[0]] else []) + WithKey(s[1..], key, k)
  }

  /**
   * The merge loop: take from `left` while its head key is `<=` the head key
   * of `right` (ties go to `left`, which is what makes the sort stable), then
   * append whatever remains.
   */
  function Merge<T>(left: seq<T>, right: seq<T>, key: T -> int): (r: seq<T>)
    ensures |r| == |left| + |right|
    ensures multiset(r) == multiset(left) + multiset(right)
    decreases |left| + |right|
  {
    if |left| == 0 then right
    else if |right| == 0 then left
    else if key(left[0]) <= key(right[0]) then
      assert left == [left[0]] + left[1..];
      [left[0]] + Merge(left[1..], right, key)
    else
      assert right == [right[0]] + right[1..];
      [right[0]] + Merge(left, right[1..], key)
  }

  /** Every key in the merge is bounded below by any common lower bound of the inputs. */
  lemma {:induction false} MergeKeysAtLeast<T>(left: seq<T>, right: seq<T>, key: T -> int, k: int)
    requires KeysAtLeast(left, key, k) && KeysAtLeast(right, key, k)
    ensures KeysAtLeast(Merge(left, right, key), key, k)
  {
    var r := Merge(left, right, key);
    forall i | 0 <= i < |r| ensures k <= key(r[i]) {
      assert r[i] in multiset(left) + multiset(right);
    }
  }

  /** Merging two sorted sequences yields a sorted sequence. */
  lemma {:induction false} MergeSorted<T>(left: seq<T>, right: seq<T>, key: T -> int)
    requires SortedBy(left, key) && SortedBy(right, key)
    ensures SortedBy(Merge(left, right, key), key)
    decreases |left| + |right|
  {
    if |left| == 0 || |right| == 0 {
    } else if key(left[0]) <= key(right[0]) {
      MergeSorted(left[1..], right, key);
      MergeKeysAtLeast(left[1..], right, key, key(left[0]));
    } else {
      MergeSorted(left, right[1..], key);
      MergeKeysAtLeast(left, right[1..], key, key(right[0]));
    }
  }

  /** `merge_sort`: split at `len // 2`, sort both halves, merge. */
  function MergeSort<T>(s: seq<T>, key: T -> int): (r: seq<T>)
    ensures multiset(r) == multiset(s)
    ensures |r| == |s|
    ensures SortedBy(r, key)
    decreases |s|
  {
    if |s| <= 1 then s
    else
      var mid := |s| / 2;
      assert s == s[..mid] + s[mid..];
      var left := MergeSort(s[..mid], key);
      var right := MergeSort(s[mid..], key);
      MergeSorted(left, right, key);
      Merge(left, right, key)
  }

  lemma {:induction false} WithKeyConcat<T>(a: seq<T>, b: seq<T>, key: T -> int, k: int)
    ensures WithKey(a + b, key, k) == WithKey(a, key, k) + WithKey(b, key, k)
    decreases |a|
  {
    if |a| == 0 {
      assert a + b == b;
    } else {
      var x, rest := a[0], a[1..];
      var c := if key(x) == k then [x] else [];
      calc {
        WithKey(a + b, key, k);
        == { assert a + b == [x] + (rest + b); WithKeyCons(x, rest + b, key, k); }
        c + WithKey(rest + b, key, k);
        == { WithKeyConcat(rest, b, key, k); }
        c + (WithKey(rest, key, k) + WithKey(b, key, k));
        == { assert a == [x] + rest; WithKeyCons(x, rest, key, k); }
        WithKey(a, key, k) + WithKey(b, key, k);
      }
    }
  }

  lemma {:induction false} WithKeyAbsent<T>(s: seq<T>, key: T -> int, k: int)
    requires forall i :: 0 <= i < |s| ==> key(s[i]) != k
    ensures WithKey(s, key, k) == []
    decreases |s|
  {
    if |s| > 0 {
      WithKeyAbsent(s[1..], key, k);
    }
  }

  lemma WithKeyCons<T>(x: T, s: seq<T>, key: T -> int, k: int)
    ensures WithKey([x] + s, key, k) == (if key(x) == k then [x] else []) + WithKey(s, key, k)
  {
    assert ([x] + s)[1..] == s;
  }

  /** Merging never reorders equal-key elements: those of `left` all come before those of `right`. */
  lemma {:induction false} MergeStable<T>(left: seq<T>, right: seq<T>, key: T -> int, k: int)
    requires SortedBy(left, key)
    ensures WithKey(Merge(left, right, key), key, k) == WithKey(left, key, k) + WithKey(right, key, k)
    decreases |left| + |right|, 1
  {
    if |left| == 0 {
    } else if |right| == 0 {
    } else if key(left[0]) <= key(right[0]) {
      MergeStableLeftHead(left, right, key, k);
    } else {
      MergeStableRightHead(left, right, key, k);
    }
  }

  /** The merge step that takes the head of `left`. */
  lemma {:induction false} MergeStableLeftHead<T>(left: seq<T>, right: seq<T>, key: T -> int, k: int)
    requires SortedBy(left, key)
    requires |left| > 0 && |right| > 0 && key(left[0]) <= key(right[0])
    ensures WithKey(Merge(left, right, key), key, k) == WithKey(left, key, k) + WithKey(right, key, k)
    decreases |left| + |right|, 0
  {
    var x, rest := left[0], left[1..];
    var tail := Merge(rest, right, key);
    var c := if key(x) == k then [x] else [];
    calc {
      WithKey(Merge(left, right, key), key, k);
      == { assert Merge(left, right, key) == [x] + tail; }
      WithKey([x] + tail, key, k);
      == { WithKeyCons(x, tail, key, k); }
      c + WithKey(tail, key, k);
      == { assert SortedBy(rest, key); MergeStable(rest, right, key, k); }
      c + (WithKey(rest, key, k) + WithKey(right, key, k));
      == { assert [x] + rest == left; WithKeyCons(x, rest, key, k); }
      WithKey(left, key, k) + WithKey(right, key, k);
    }
  }

  /** The merge step that takes the head of `right`, whose key is below every key of `left`. */
  lemma {:induction false} MergeStableRightHead<T>(left: seq<T>, right: seq<T>, key: T -> int, k: int)
    requires SortedBy(left, key)
    requires |left| > 0 && |right| > 0 && key(right[0]) < key(left[0])
    ensures WithKey(Merge(left, right, key), key, k) == WithKey(left, key, k) + WithKey(right, key, k)
    decreases |left| + |right|, 0
  {
    var y, rest := right[0], right[1..];
    var tail := Merge(left, rest, key);
    var c := if key(y) == k then [y] else [];
    var a := WithKey(left, key, k);
    calc {
      WithKey(Merge(left, right, key), key, k);
      == { assert Merge(left, right, key) == [y] + tail; }
      WithKey([y] + tail, key, k);
      == { WithKeyCons(y, tail, key, k); }
      c + WithKey(tail, key, k);
      == { MergeStable(left, rest, key, k); }
      c + (a + WithKey(rest, key, k));
      == { KeysAboveRightHead(left, key, y, k); }
      a + (c + WithKey(rest, key, k));
      == { assert [y] + rest == right; WithKeyCons(y, rest, key, k); }
      a + WithKey(right, key, k);
    }
  }

  /** An element keyed below the head of sorted `left` commutes with the `k`-keyed elements of `left`. */
  lemma KeysAboveRightHead<T>(left: seq<T>, key: T -> int, y: T, k: int)
    requires SortedBy(left, key) && |left| > 0 && key(y) < key(left[0])
    ensures forall r :: (if key(y) == k then [y] else []) + (WithKey(left, key, k) + r)
                     == WithKey(left, key, k) + ((if key(y) == k then [y] else []) + r)
  {
    if key(y) == k {
      assert forall i :: 0 <= i < |left| ==> key(left[0]) <= key(left[i]);
      WithKeyAbsent(left, key, k);
      assert WithKey(left, key, k) == [];
    }
  }

  /**
   * Stability of `merge_sort`: for every key value, the elements carrying that
   * key appear in the output in the same relative order as in the input.
   */
  lemma {:induction false} MergeSortStable<T>(s: seq<T>, key: T -> int, k: int)
    ensures WithKey(MergeSort(s, key), key, k) == WithKey(s, key, k)
    decreases |s|
  {
    if |s| > 1 {
      var mid := |s| / 2;
      var lo, hi := s[..mid], s[mid..];
      var left, right := MergeSort(lo, key), MergeSort(hi, key);
      calc {
        WithKey(MergeSort(s, key), key, k);
        == { assert MergeSort(s, key) == Merge(left, right, key); }
        WithKey(Merge(left, right, key), key, k);
        == { MergeStable(left, right, key, k); }
        WithKey(left, key, k) + WithKey(right, key, k);
        == { MergeSortStable(lo, key, k); MergeSortStable(hi, key, k); }
        WithKey(lo, key, k) + WithKey(hi, key, k);
        == { WithKeyConcat(lo, hi, key, k); assert lo + hi == s; }
        WithKey(s, key, k);
      }
    }
  }

  /** The head of a sorted integer sequence is its least element. */
  lemma SortedHeadIsLeast(a: seq<int>, x: int)
    requires SortedBy(a, Id)
    requires x in multiset(a)
    ensures a[0] <= x
  {
    var i :| 0 <= i < |a| && a[i] == x;
    assert Id(a[0]) <= Id(a[i]);
  }

  /** A sorted integer sequence is determined by its multiset of elements. */
  lemma {:induction false} SortedPermutationUnique(a: seq<int>, b: seq<int>)
    requires SortedBy(a, Id) && SortedBy(b, Id)
    requires multiset(a) == multiset(b)
    ensures a == b
    decreases |a|
  {
    if |a| == 0 {
      assert b == [] by {
        assert |b| == |multiset(b)| == |multiset(a)| == 0;
      }
    } else {
      SortedSameHead(a, b);
      SortedTail(a, Id);
      SortedTail(b, Id);
      SortedPermutationUnique(a[1..], b[1..]);
      assert a == [a[0]] + a[1..] && b == [b[0]] + b[1..];
    }
  }

  /** Two sorted permutations of each other start with the same element and agree after it. */
  lemma SortedSameHead(a: seq<int>, b: seq<int>)
    requires SortedBy(a, Id) && SortedBy(b, Id)
    requires multiset(a) == multiset(b)
    requires |a| > 0
    ensures |b| > 0 && b[0] == a[0]
    ensures multiset(a[1..]) == multiset(b[1..])
  {
    assert |b| > 0 by {
      assert a[0] in multiset(b);
    }
    assert b[0] == a[0] by {
      SortedHeadIsLeast(a, b[0]);
      SortedHeadIsLeast(b, a[0]);
    }
    DropHead(a);
    DropHead(b);
  }

  /** A suffix of a sorted sequence is sorted. */
  lemma SortedTail<T>(s: seq<T>, key: T -> int)
    requires SortedBy(s, key) && |s| > 0
    ensures SortedBy(s[1..], key)
  {
    assert forall i, j :: 0 <= i < j < |s| - 1 ==> key(s[1..][i]) <= key(s[1..][j]) by {
      forall i, j | 0 <= i < j < |s| - 1 ensures key(s[1..][i]) <= key(s[1..][j]) {
        assert s[1..][i] == s[i + 1] && s[1..][j] == s[j + 1];
      }
    }
  }

  /** Removing the head removes one copy of it from the multiset. */
  lemma DropHead(a: seq<int>)
    requires |a| > 0
    ensures multiset(a[1..]) == multiset(a) - multiset{a[0]}
  {
    assert a == [a[0]] + a[1..];
  }

  /** utils.py `_merge`: merge two room lists by price. */
  function MergeByPrice(left: seq<Room>, right: seq<Room>): (r: seq<Room>)
    ensures |r| == |left| + |right|
    ensures multiset(r) == multiset(left) + multiset(right)
    ensures SortedBy(left, RoomPrice) && SortedBy(right, RoomPrice) ==> SortedBy(r, RoomPrice)
  {
    var r := Merge(left, right, RoomPrice);
    if SortedBy(left, RoomPrice) && SortedBy(right, RoomPrice) then
      MergeSorted(left, right, RoomPrice);
      r
    else
      r
  }

  /** utils.py `merge_sort_by_price`: a price-sorted permutation of the rooms. */
  function MergeSortByPrice(rooms: seq<Room>): (r: seq<Room>)
    ensures multiset(r) == multiset(rooms)
    ensures SortedBy(r, RoomPrice)
    ensures forall p :: WithKey(r, RoomPrice, p) == WithKey(rooms, RoomPrice, p)
    decreases |rooms|
  {
    if |rooms| <= 1 then rooms
    else
      var mid := |rooms| / 2;
      assert rooms == rooms[..mid] + rooms[mid..];
      var left := MergeSortByPrice(rooms[..mid]);
      var right := MergeSortByPrice(rooms[mid..]);
      assert forall p :: WithKey(MergeByPrice(left, right), RoomPrice, p) == WithKey(rooms, RoomPrice, p) by {
        forall p ensures WithKey(MergeByPrice(left, right), RoomPrice, p) == WithKey(rooms, RoomPrice, p) {
          MergeStable(left, right, RoomPrice, p);
          WithKeyConcat(rooms[..mid], rooms[mid..], RoomPrice, p);
        }
      }
      MergeByPrice(left, right)
  }
}
