/** Small shared vocabulary: the optional value the Python code expresses with `None`. */
module Common {

  /** A value that may be absent (Python's `None`). */
  datatype Option<+T> = None | Some(value: T)

  /** Pairwise distinct elements. */
  predicate Distinct<T(==)>(s: seq<T>) {
    forall i, j :: 0 <= i < j < |s| ==> s[i] != s[j]
  }

  /** Identity on integers, used as the sort/search key of plain integer lists. */
  function Id(x: int): int { x }

  /**
   * Position of the first element satisfying `p`: the row a `SELECT ... WHERE`
   * followed by `fetchone()` yields when rows come back in key order.
   */
  function FirstIndex<T>(s: seq<T>, p: T -> bool): (r: Option<nat>)
    ensures r.Some? ==> r.value < |s| && p(s[r.value]) && forall j :: 0 <= j < r.value ==> !p(s[j])
    ensures r.None? ==> forall j :: 0 <= j < |s| ==> !p(s[j])
  {
    if |s| == 0 then None
    else if p(s[0]) then Some(0)
    else match FirstIndex(s[1..], p)
      case None => None
      case Some(k) => Some(k + 1)
  }

  /**
   * The positions below `n` satisfying `p`, ascending: the rows a filtering
   * `SELECT ... fetchall()` yields when rows come back in key order.
   */
  function IndicesWhere(n: nat, p: nat -> bool): (r: seq<nat>)
    ensures forall k: nat :: k in r <==> k < n && p(k)
    ensures forall i :: 0 <= i < |r| ==> r[i] < n
    ensures forall i, j :: 0 <= i < j < |r| ==> r[i] < r[j]
  {
    if n == 0 then []
    else
      var prev := IndicesWhere(n - 1, p);
      if p(n - 1) then AppendAbove(prev, n - 1); prev + [n - 1] else prev
  }

  /** Appending a value above every element of an ascending list keeps it ascending and adds just that value. */
  lemma AppendAbove(s: seq<nat>, x: nat)
    requires forall i :: 0 <= i < |s| ==> s[i] < x
    requires forall i, j :: 0 <= i < j < |s| ==> s[i] < s[j]
    ensures forall k :: k in s + [x] <==> k in s || k == x
    ensures forall i :: 0 <= i < |s + [x]| ==> (s + [x])[i] <= x
    ensures forall i, j :: 0 <= i < j < |s + [x]| ==> (s + [x])[i] < (s + [x])[j]
  {
  }

  /** Filters that agree below `n` select the same positions. */
  lemma {:induction false} IndicesWhereAgree(n: nat, p: nat -> bool, q: nat -> bool)
    requires forall k: nat :: k < n ==> p(k) == q(k)
    ensures IndicesWhere(n, p) == IndicesWhere(n, q)
  {
    if n > 0 {
      IndicesWhereAgree(n - 1, p, q);
    }
  }
}
