/**
 * The iterative binary search of services.py (`binary_search_int`), utils.py
 * (`binary_search_room`) and benchmark.py (`binary_search`): the same loop over
 * `low`, `high`, `mid = (low + high) // 2`, compared on an integer key.
 */
module Searching {
  import opened Common
  import opened Records
  import opened Sorting

  /**
   * Returns the position the loop stops at when it meets `target`, or None.
   * A reported position always holds the target; on a key-sorted sequence,
   * None means no element has that key. Unsorted input is accepted (the
   * code does not check), it just loses the second guarantee.
   */
  method BinarySearchBy<T>(s: seq<T>, key: T -> int, target: int) returns (r: Option<nat>)
    ensures r.Some? ==> r.value < |s| && key(s[r.value]) == target
    ensures r.None? && SortedBy(s, key) ==> forall i :: 0 <= i < |s| ==> key(s[i]) != target
  {
    var low, high := 0, |s| - 1;
    while low <= high
      invariant 0 <= low <= high + 1 <= |s|
      invariant SortedBy(s, key) ==> forall i :: 0 <= i < low ==> key(s[i]) < target
      invariant SortedBy(s, key) ==> forall i :: high < i < |s| ==> key(s[i]) > target
      decreases high - low
    {
      var mid := (low + high) / 2;
      if key(s[mid]) == target {
        return Some(mid);
      } else if key(s[mid]) < target {
        low := mid + 1;
      } else {
        high := mid - 1;
      }
    }
    return None;
  }

  /** services.py `binary_search_int`: membership of `target` in an ascending list of ids. */
  method BinarySearchInt(sortedArr: seq<int>, target: int) returns (found: bool)
    ensures found ==> target in sortedArr
    ensures SortedBy(sortedArr, Id) ==> (found <==> target in sortedArr)
  {
    var r := BinarySearchBy(sortedArr, Id, target);
    found := r.Some?;
  }

  /** utils.py `binary_search_room`: the room record with the given id, in a list sorted by id. */
  method BinarySearchRoom(sortedArr: seq<Room>, targetId: int) returns (r: Option<Room>)
    ensures r.Some? ==> r.value in sortedArr && r.value.id == targetId
    ensures SortedBy(sortedArr, RoomId) && r.None? ==> forall room :: room in sortedArr ==> room.id != targetId
  {
    var k := BinarySearchBy(sortedArr, RoomId, targetId);
    if k.Some? {
      r := Some(sortedArr[k.value]);
    } else {
      r := None;
    }
  }
}
