/**
 * services.py `suggest_service_combos`: every set of services (each used at
 * most once) whose price total fits the budget, found by backtracking over the
 * services sorted by price, then the five with the highest totals.
 */
module Combos {
  import opened Records
  import opened Sorting

  /**
   * One suggestion: `names` and `total` are what the code returns; `picks`
   * records which positions of the price-sorted list were chosen, so that
   * "each service at most once" can be stated.
   */
  datatype Combo = Combo(picks: seq<nat>, names: seq<string>, total: int)

  /** Positions strictly increasing and inside the list. */
  predicate ValidPicks(items: seq<Service>, picks: seq<nat>) {
    && (forall k :: 0 <= k < |picks| ==> picks[k] < |items|)
    && (forall k, l :: 0 <= k < l < |picks| ==> picks[k] < picks[l])
  }

  /** The price total of the chosen positions. */
  function PriceSum(items: seq<Service>, picks: seq<nat>): int
    requires forall k :: 0 <= k < |picks| ==> picks[k] < |items|
  {
    if |picks| == 0 then 0
    else PriceSum(items, picks[..|picks| - 1]) + items[picks[|picks| - 1]].price
  }

  /** The names of the chosen positions, in order. */
  function NamesOf(items: seq<Service>, picks: seq<nat>): seq<string>
    requires forall k :: 0 <= k < |picks| ==> picks[k] < |items|
  {
    if |picks| == 0 then []
    else NamesOf(items, picks[..|picks| - 1]) + [items[picks[|picks| - 1]].name]
  }

  /** A suggestion the code may make: distinct services, names matching, a positive total within budget. */
  predicate ValidCombo(items: seq<Service>, budget: int, c: Combo) {
    && ValidPicks(items, c.picks)
    && c.names == NamesOf(items, c.picks)
    && c.total == PriceSum(items, c.picks)
    && 0 < c.total <= budget
  }

  /** The state `backtrack` is called in: the current combo and its running total. */
  predicate Partial(items: seq<Service>, budget: int, start: nat, picks: seq<nat>, names: seq<string>, total: int) {
    && start <= |items|
    && ValidPicks(items, picks)
    && (forall k :: 0 <= k < |picks| ==> picks[k] < start)
    && names == NamesOf(items, picks)
    && total == PriceSum(items, picks)
    && (|picks| > 0 ==> total <= budget)
  }

  lemma PartialExtend(items: seq<Service>, budget: int, start: nat, picks: seq<nat>, names: seq<string>, total: int, i: nat)
    requires Partial(items, budget, start, picks, names, total)
    requires start <= i < |items| && total + items[i].price <= budget
    ensures Partial(items, budget, i + 1, picks + [i], names + [items[i].name], total + items[i].price)
  {
    PriceSumSnoc(items, picks, i);
    assert (picks + [i])[..|picks|] == picks;
  }

  /**
   * `backtrack(start_idx, current_combo, current_total)`: record the current
   * combo when its total is positive, then try each later service whose price
   * still fits.
   */
  function Backtrack(items: seq<Service>, budget: int, start: nat, picks: seq<nat>, names: seq<string>, total: int): (r: seq<Combo>)
    requires Partial(items, budget, start, picks, names, total)
    ensures forall c :: c in r ==> ValidCombo(items, budget, c)
    decreases |items| - start, 1
  {
    (if total > 0 then [Combo(picks, names, total)] else [])
      + TryFrom(items, budget, start, start, picks, names, total)
  }

  /** The `for i in range(start_idx, len(service_list))` loop of `backtrack`, from position `i` on. */
  function TryFrom(items: seq<Service>, budget: int, start: nat, i: nat, picks: seq<nat>, names: seq<string>, total: int): (r: seq<Combo>)
    requires Partial(items, budget, start, picks, names, total) && start <= i
    ensures forall c :: c in r ==> ValidCombo(items, budget, c)
    decreases |items| - i, 0
  {
    if i >= |items| then []
    else if total + items[i].price > budget then
      TryFrom(items, budget, start, i + 1, picks, names, total)
    else
      PartialExtend(items, budget, start, picks, names, total, i);
      Backtrack(items, budget, i + 1, picks + [i], names + [items[i].name], total + items[i].price)
        + TryFrom(items, budget, start, i + 1, picks, names, total)
  }

  /** `service_list.sort(key=lambda x: x.price)`. */
  function ByPrice(serviceList: seq<Service>): (r: seq<Service>)
    ensures multiset(r) == multiset(serviceList)
    ensures SortedBy(r, ServicePrice)
  {
    MergeSort(serviceList, ServicePrice)
  }

  /** Every suggestion the backtracking finds, in discovery order. */
  function AllCombos(serviceList: seq<Service>, budget: int): (r: seq<Combo>)
    ensures forall c :: c in r ==> ValidCombo(ByPrice(serviceList), budget, c)
  {
    var items := ByPrice(serviceList);
    Backtrack(items, budget, 0, [], [], 0)
  }

  /** Sort key of `results.sort(key=total, reverse=True)`; a stable ascending sort on it keeps ties in order. */
  function NegTotal(c: Combo): int { -c.total }

  lemma {:induction false} PriceSumAppend(items: seq<Service>, a: seq<nat>, b: seq<nat>)
    requires forall k :: 0 <= k < |a| ==> a[k] < |items|
    requires forall k :: 0 <= k < |b| ==> b[k] < |items|
    ensures PriceSum(items, a + b) == PriceSum(items, a) + PriceSum(items, b)
    decreases |b|
  {
    if |b| == 0 {
      assert a + b == a;
    } else {
      var b' := b[..|b| - 1];
      assert (a + b)[..|a + b| - 1] == a + b';
      PriceSumAppend(items, a, b');
    }
  }

  lemma {:induction false} PriceSumNonNegative(items: seq<Service>, picks: seq<nat>)
    requires forall k :: 0 <= k < |items| ==> items[k].price >= 0
    requires forall k :: 0 <= k < |picks| ==> picks[k] < |items|
    ensures PriceSum(items, picks) >= 0
    decreases |picks|
  {
    if |picks| > 0 {
      PriceSumNonNegative(items, picks[..|picks| - 1]);
    }
  }

  /**
   * With non-negative prices nothing is pruned wrongly: every extension of the
   * current combo by later positions that fits the budget and has a positive
   * total is found.
   */
  lemma {:induction false} BacktrackComplete(items: seq<Service>, budget: int, start: nat, picks: seq<nat>,
                                             names: seq<string>, total: int, ext: seq<nat>, c: Combo)
    requires Partial(items, budget, start, picks, names, total)
    requires forall k :: 0 <= k < |items| ==> items[k].price >= 0
    requires ValidPicks(items, ext) && forall k :: 0 <= k < |ext| ==> start <= ext[k]
    requires ValidCombo(items, budget, c) && c.picks == picks + ext
    ensures c in Backtrack(items, budget, start, picks, names, total)
    decreases |items| - start, 3
  {
    if |ext| == 0 {
      assert c.picks == picks;
      assert c == Combo(picks, names, total);
    } else {
      TryFromComplete(items, budget, start, start, picks, names, total, ext, c);
    }
  }

  lemma SplitFirst(picks: seq<nat>, ext: seq<nat>)
    requires |ext| > 0
    ensures picks + ext == (picks + [ext[0]]) + ext[1..]
  {
    assert ext == [ext[0]] + ext[1..];
    assert picks + ([ext[0]] + ext[1..]) == (picks + [ext[0]]) + ext[1..];
  }

  lemma PriceSumSnoc(items: seq<Service>, picks: seq<nat>, x: nat)
    requires forall k :: 0 <= k < |picks| ==> picks[k] < |items|
    requires x < |items|
    ensures PriceSum(items, picks + [x]) == PriceSum(items, picks) + items[x].price
  {
    assert (picks + [x])[..|picks|] == picks;
  }

  /** With non-negative prices, taking the first extra position keeps within budget. */
  lemma FirstFits(items: seq<Service>, budget: int, picks: seq<nat>, total: int, ext: seq<nat>)
    requires forall k :: 0 <= k < |items| ==> items[k].price >= 0
    requires forall k :: 0 <= k < |picks| ==> picks[k] < |items|
    requires forall k :: 0 <= k < |ext| ==> ext[k] < |items|
    requires total == PriceSum(items, picks)
    requires |ext| > 0
    requires PriceSum(items, picks + ext) <= budget
    ensures total + items[ext[0]].price <= budget
  {
    var x := ext[0];
    var rest := ext[1..];
    var p := picks + [x];
    SplitBounds(items, picks, ext);
    calc {
      total + items[x].price;
    == { PriceSumSnoc(items, picks, x); }
      PriceSum(items, p);
    <= { PriceSumNonNegative(items, rest); }
      PriceSum(items, p) + PriceSum(items, rest);
    == { PriceSumAppend(items, p, rest); }
      PriceSum(items, picks + ext);
    }
  }

  /** Both halves of the split at the first extra position are positions of `items`. */
  lemma SplitBounds(items: seq<Service>, picks: seq<nat>, ext: seq<nat>)
    requires forall k :: 0 <= k < |picks| ==> picks[k] < |items|
    requires forall k :: 0 <= k < |ext| ==> ext[k] < |items|
    requires |ext| > 0
    ensures forall k :: 0 <= k < |picks + [ext[0]]| ==> (picks + [ext[0]])[k] < |items|
    ensures forall k :: 0 <= k < |ext[1..]| ==> ext[1..][k] < |items|
    ensures picks + ext == (picks + [ext[0]]) + ext[1..]
    ensures forall k :: 0 <= k < |picks + ext| ==> (picks + ext)[k] < |items|
  {
    forall k | 0 <= k < |ext[1..]| ensures ext[1..][k] < |items| {
      assert ext[1..][k] == ext[k + 1];
    }
    SplitFirst(picks, ext);
  }

  lemma {:induction false} TryFromComplete(items: seq<Service>, budget: int, start: nat, i: nat, picks: seq<nat>,
                                           names: seq<string>, total: int, ext: seq<nat>, c: Combo)
    requires Partial(items, budget, start, picks, names, total)
    requires forall k :: 0 <= k < |items| ==> items[k].price >= 0
    requires ValidPicks(items, ext) && forall k :: 0 <= k < |ext| ==> start <= ext[k]
    requires |ext| > 0 && start <= i <= ext[0]
    requires ValidCombo(items, budget, c) && c.picks == picks + ext
    ensures c in TryFrom(items, budget, start, i, picks, names, total)
    decreases |items| - i, 2
  {
    if i == ext[0] {
      TryFirstComplete(items, budget, start, picks, names, total, ext, c);
    } else {
      TryFromComplete(items, budget, start, i + 1, picks, names, total, ext, c);
    }
  }

  /** The loop iteration at the first extra position descends into the combo's remainder. */
  lemma {:induction false} TryFirstComplete(items: seq<Service>, budget: int, start: nat, picks: seq<nat>,
                                            names: seq<string>, total: int, ext: seq<nat>, c: Combo)
    requires Partial(items, budget, start, picks, names, total)
    requires forall k :: 0 <= k < |items| ==> items[k].price >= 0
    requires ValidPicks(items, ext) && forall k :: 0 <= k < |ext| ==> start <= ext[k]
    requires |ext| > 0
    requires ValidCombo(items, budget, c) && c.picks == picks + ext
    ensures c in TryFrom(items, budget, start, ext[0], picks, names, total)
    decreases |items| - ext[0], 1
  {
    DescendFirst(items, budget, start, picks, names, total, ext, c);
    TakenBranchIncluded(items, budget, start, ext[0], picks, names, total, c);
  }

  /** The first extra position fits, and the call made for it finds the combo. */
  lemma {:induction false} DescendFirst(items: seq<Service>, budget: int, start: nat, picks: seq<nat>,
                                        names: seq<string>, total: int, ext: seq<nat>, c: Combo)
    requires Partial(items, budget, start, picks, names, total)
    requires forall k :: 0 <= k < |items| ==> items[k].price >= 0
    requires ValidPicks(items, ext) && forall k :: 0 <= k < |ext| ==> start <= ext[k]
    requires |ext| > 0
    requires ValidCombo(items, budget, c) && c.picks == picks + ext
    ensures ext[0] < |items| && total + items[ext[0]].price <= budget
    ensures Partial(items, budget, ext[0] + 1, picks + [ext[0]], names + [items[ext[0]].name], total + items[ext[0]].price)
    ensures c in Backtrack(items, budget, ext[0] + 1, picks + [ext[0]], names + [items[ext[0]].name], total + items[ext[0]].price)
    decreases |items| - ext[0], 0
  {
    DescendSetup(items, budget, start, picks, names, total, ext);
    var x := ext[0];
    BacktrackComplete(items, budget, x + 1, picks + [x], names + [items[x].name], total + items[x].price, ext[1..], c);
  }

  /** The call for the first extra position is a legal `backtrack` state, and the combo's remainder extends it. */
  lemma DescendSetup(items: seq<Service>, budget: int, start: nat, picks: seq<nat>,
                     names: seq<string>, total: int, ext: seq<nat>)
    requires Partial(items, budget, start, picks, names, total)
    requires forall k :: 0 <= k < |items| ==> items[k].price >= 0
    requires ValidPicks(items, ext) && forall k :: 0 <= k < |ext| ==> start <= ext[k]
    requires |ext| > 0
    requires PriceSum(items, picks + ext) <= budget
    ensures ext[0] < |items| && total + items[ext[0]].price <= budget
    ensures (picks + [ext[0]]) + ext[1..] == picks + ext
    ensures Partial(items, budget, ext[0] + 1, picks + [ext[0]], names + [items[ext[0]].name], total + items[ext[0]].price)
    ensures ValidPicks(items, ext[1..]) && forall k :: 0 <= k < |ext[1..]| ==> ext[0] + 1 <= ext[1..][k]
  {
    SplitFirst(picks, ext);
    FirstFits(items, budget, picks, total, ext);
    PartialExtend(items, budget, start, picks, names, total, ext[0]);
    RestValid(items, ext);
  }

  /** The remainder of strictly increasing positions lies after the first. */
  lemma RestValid(items: seq<Service>, ext: seq<nat>)
    requires ValidPicks(items, ext) && |ext| > 0
    ensures ValidPicks(items, ext[1..])
    ensures forall k :: 0 <= k < |ext[1..]| ==> ext[0] + 1 <= ext[1..][k]
  {
    forall k | 0 <= k < |ext[1..]| ensures ext[0] + 1 <= ext[1..][k] {
      assert ext[1..][k] == ext[k + 1];
    }
  }

  /** What the recursive call for a service that fits finds is part of the loop's result. */
  lemma TakenBranchIncluded(items: seq<Service>, budget: int, start: nat, i: nat, picks: seq<nat>,
                            names: seq<string>, total: int, c: Combo)
    requires Partial(items, budget, start, picks, names, total)
    requires start <= i < |items| && total + items[i].price <= budget
    requires Partial(items, budget, i + 1, picks + [i], names + [items[i].name], total + items[i].price)
    requires c in Backtrack(items, budget, i + 1, picks + [i], names + [items[i].name], total + items[i].price)
    ensures c in TryFrom(items, budget, start, i, picks, names, total)
  {
    var taken := Backtrack(items, budget, i + 1, picks + [i], names + [items[i].name], total + items[i].price);
    var later := TryFrom(items, budget, start, i + 1, picks, names, total);
    assert TryFrom(items, budget, start, i, picks, names, total) == taken + later;
  }

  /**
   * With non-negative prices, the backtracking finds exactly the valid combos
   * (the converse direction is the contract of `AllCombos`).
   */
  lemma AllCombosComplete(serviceList: seq<Service>, budget: int, c: Combo)
    requires forall k :: 0 <= k < |serviceList| ==> serviceList[k].price >= 0
    requires ValidCombo(ByPrice(serviceList), budget, c)
    ensures c in AllCombos(serviceList, budget)
  {
    var items := ByPrice(serviceList);
    forall k | 0 <= k < |items| ensures items[k].price >= 0 {
      assert items[k] in multiset(serviceList);
    }
    assert [] + c.picks == c.picks;
    BacktrackComplete(items, budget, 0, [], [], 0, c.picks, c);
  }

  /** `results[:5]`. */
  function FirstFive(ranked: seq<Combo>): (r: seq<Combo>)
    ensures |r| <= 5 && |r| <= |ranked| && r == ranked[..|r|]
    ensures |r| == 5 || r == ranked
  {
    if |ranked| <= 5 then ranked else ranked[..5]
  }

  /** The first five of a list ranked by non-increasing total beat everything after them. */
  lemma FirstFiveAreTop(all: seq<Combo>, ranked: seq<Combo>)
    requires SortedBy(ranked, NegTotal) && multiset(ranked) == multiset(all)
    ensures forall k, l :: 0 <= k < l < |FirstFive(ranked)| ==> FirstFive(ranked)[k].total >= FirstFive(ranked)[l].total
    ensures forall c :: c in all && c !in FirstFive(ranked) ==> |FirstFive(ranked)| == 5 && c.total <= FirstFive(ranked)[4].total
    ensures forall k :: 0 <= k < |FirstFive(ranked)| ==> FirstFive(ranked)[k] in all
  {
    var r := FirstFive(ranked);
    forall k, l | 0 <= k < l < |r| ensures r[k].total >= r[l].total {
      assert NegTotal(ranked[k]) <= NegTotal(ranked[l]);
    }
    forall c | c in all && c !in r ensures |r| == 5 && c.total <= r[4].total {
      assert c in multiset(ranked);
      var p :| 0 <= p < |ranked| && ranked[p] == c;
      assert NegTotal(ranked[4]) <= NegTotal(ranked[p]);
    }
    forall k | 0 <= k < |r| ensures r[k] in all {
      assert r[k] in multiset(ranked);
    }
  }

  /**
   * `suggest_service_combos`: at most five suggestions, each a valid combo,
   * by non-increasing total; none of the combos left out has a higher total
   * than the last one returned.
   */
  function SuggestServiceCombos(serviceList: seq<Service>, maxBudget: int): (r: seq<Combo>)
    ensures |r| <= 5
    ensures forall k :: 0 <= k < |r| ==> ValidCombo(ByPrice(serviceList), maxBudget, r[k])
    ensures forall k, l :: 0 <= k < l < |r| ==> r[k].total >= r[l].total
    ensures forall c :: c in AllCombos(serviceList, maxBudget) && c !in r ==> |r| == 5 && c.total <= r[4].total
  {
    var all := AllCombos(serviceList, maxBudget);
    var ranked := MergeSort(all, NegTotal);
    FirstFiveAreTop(all, ranked);
    FirstFive(ranked)
  }
}
