/**
 * The cumulative `total` of a side: both branches of the reconciliation
 * engine attach to each sorted level the running sum of the quantities from
 * the best price outward (`total: (acc += level.quantity)`).
 */
module RunningTotal {
  import opened Wrappers
  import opened Entities

  /** The sum of the quantities of `s`. */
  function SumQty(s: seq<OrderLevel>): real {
    if s == [] then 0.0 else s[0].quantity + SumQty(s[1..])
  }

  lemma {:induction false} SumQtyAppend(s: seq<OrderLevel>, x: OrderLevel)
    ensures SumQty(s + [x]) == SumQty(s) + x.quantity
  {
    if s != [] {
      assert (s + [x])[1..] == s[1..] + [x];
      SumQtyAppend(s[1..], x);
    }
  }

  /**
   * The levels of `s` with `total` filled in, the accumulator starting at
   * `start`: the `map` with a running accumulator, as a recursive function.
   */
  function RunningTotals(s: seq<OrderLevel>, start: real): (r: seq<OrderLevel>)
    ensures |r| == |s|
  {
    if s == [] then []
    else
      var acc := start + s[0].quantity;
      [OrderLevel(s[0].price, s[0].quantity, Some(acc))] + RunningTotals(s[1..], acc)
  }

  /**
   * The prefix-sum identity: level `i` keeps its price and quantity and its
   * total is the start plus the quantities of levels 0..i.
   */
  lemma {:induction false} RunningTotalsArePrefixSums(s: seq<OrderLevel>, start: real)
    ensures forall i :: 0 <= i < |s| ==>
      RunningTotals(s, start)[i] == OrderLevel(s[i].price, s[i].quantity, Some(start + SumQty(s[..i + 1])))
  {
    if s != [] {
      var acc := start + s[0].quantity;
      var rest := RunningTotals(s[1..], acc);
      RunningTotalsArePrefixSums(s[1..], acc);
      forall i | 0 <= i < |s|
        ensures RunningTotals(s, start)[i] == OrderLevel(s[i].price, s[i].quantity, Some(start + SumQty(s[..i + 1])))
      {
        assert s[..i + 1][0] == s[0];
        assert s[..i + 1][1..] == s[1..][..i];
        if i > 0 {
          assert RunningTotals(s, start)[i] == rest[i - 1];
          assert s[1..][i - 1] == s[i];
          assert s[1..][..i - 1 + 1] == s[1..][..i];
        }
      }
    }
  }

  lemma {:induction false} SumQtyPrefixGrows(s: seq<OrderLevel>, i: nat, j: nat)
    requires forall k :: 0 <= k < |s| ==> s[k].quantity >= 0.0
    requires i <= j <= |s|
    ensures SumQty(s[..i]) <= SumQty(s[..j])
  {
    if i < j {
      SumQtyPrefixGrows(s, i, j - 1);
      assert s[..j] == s[..j - 1] + [s[j - 1]];
      SumQtyAppend(s[..j - 1], s[j - 1]);
    }
  }

  /** With non-negative quantities the totals never decrease outward from the best price. */
  lemma TotalsNonDecreasing(s: seq<OrderLevel>)
    requires forall k :: 0 <= k < |s| ==> s[k].quantity >= 0.0
    ensures forall i, j :: 0 <= i < j < |s| ==>
      RunningTotals(s, 0.0)[i].total.Some? && RunningTotals(s, 0.0)[j].total.Some? &&
      RunningTotals(s, 0.0)[i].total.value <= RunningTotals(s, 0.0)[j].total.value
  {
    RunningTotalsArePrefixSums(s, 0.0);
    forall i, j | 0 <= i < j < |s|
      ensures RunningTotals(s, 0.0)[i].total.value <= RunningTotals(s, 0.0)[j].total.value
    {
      SumQtyPrefixGrows(s, i + 1, j + 1);
    }
  }

  /** The last total is the side's whole quantity. */
  lemma LastTotalIsDepth(s: seq<OrderLevel>)
    requires s != []
    ensures RunningTotals(s, 0.0)[|s| - 1].total == Some(SumQty(s))
  {
    RunningTotalsArePrefixSums(s, 0.0);
    assert s[..|s|] == s;
  }
}
