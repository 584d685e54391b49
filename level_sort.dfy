/**
 * The ordering of a book side. Both branches of the reconciliation engine
 * sort levels with JavaScript's Array.prototype.sort, which is stable, and
 * the comparator `b.price - a.price` (bids) or `a.price - b.price` (asks).
 * SortLevels is that sort written as a stable insertion sort.
 */
module LevelSort {
  import opened Entities

  /** The two orders a side is sorted in: asks ascending, bids descending. */
  datatype Order = Asc | Desc

  /**
   * The position key of a level on a side: the side is in non-decreasing
   * rank order (bids by descending price, asks by ascending price).
   */
  function Rank(order: Order, l: OrderLevel): real {
    if order == Desc then -l.price else l.price
  }

  /** `a` has a strictly better price than `b` on a side sorted by `order`. */
  predicate Ahead(order: Order, a: OrderLevel, b: OrderLevel) {
    Rank(order, a) < Rank(order, b)
  }

  /** The comparator does not move `b` in front of `a`. */
  predicate NotAfter(order: Order, a: OrderLevel, b: OrderLevel) {
    Rank(order, a) <= Rank(order, b)
  }

  predicate Sorted(s: seq<OrderLevel>, order: Order) {
    forall i, j :: 0 <= i < j < |s| ==> NotAfter(order, s[i], s[j])
  }

  predicate StrictlySorted(s: seq<OrderLevel>, order: Order) {
    forall i, j :: 0 <= i < j < |s| ==> Ahead(order, s[i], s[j])
  }

  lemma StrictlySortedIsSorted(s: seq<OrderLevel>, order: Order)
    requires StrictlySorted(s, order)
    ensures Sorted(s, order)
  {
  }

  predicate UniquePrices(s: seq<OrderLevel>) {
    forall i, j :: 0 <= i < j < |s| ==> s[i].price != s[j].price
  }

  /** The levels of `s` at price `p`, in their order in `s`. */
  function WithPrice(s: seq<OrderLevel>, p: real): seq<OrderLevel> {
    if s == [] then []
    else (if s[0].price == p then [s[0]] else []) + WithPrice(s[1..], p)
  }

  /** Every element of `t` is one of `s`'s or `x` itself. */
  lemma MemberOfInsert(s: seq<OrderLevel>, x: OrderLevel, t: seq<OrderLevel>, y: OrderLevel)
    requires multiset(t) == multiset(s) + multiset{x}
    requires y in t
    ensures y == x || y in s
  {
    assert y in multiset(t);
  }

  /**
   * Inserts `x` in front of the first level that it may precede, that is,
   * in front of every level of the same price: the step of a stable sort.
   */
  function Insert(x: OrderLevel, s: seq<OrderLevel>, order: Order): (r: seq<OrderLevel>)
    ensures |r| == |s| + 1
    ensures multiset(r) == multiset(s) + multiset{x}
  {
    if s == [] then [x]
    else if NotAfter(order, x, s[0]) then [x] + s
    else
      assert s == [s[0]] + s[1..];
      [s[0]] + Insert(x, s[1..], order)
  }

  /** A level that may precede every level of a sorted side can go in front of it. */
  lemma SortedCons(y: OrderLevel, t: seq<OrderLevel>, order: Order)
    requires Sorted(t, order)
    requires forall k :: 0 <= k < |t| ==> NotAfter(order, y, t[k])
    ensures Sorted([y] + t, order)
  {
    var r := [y] + t;
    forall i, j | 0 <= i < j < |r| ensures NotAfter(order, r[i], r[j]) {
      assert r[j] == t[j - 1];
      if i > 0 {
        assert r[i] == t[i - 1];
      }
    }
  }

  /** A level strictly ahead of every level of a strictly sorted side can go in front of it. */
  lemma StrictlySortedCons(y: OrderLevel, t: seq<OrderLevel>, order: Order)
    requires StrictlySorted(t, order)
    requires forall k :: 0 <= k < |t| ==> Ahead(order, y, t[k])
    ensures StrictlySorted([y] + t, order)
  {
    var r := [y] + t;
    forall i, j | 0 <= i < j < |r| ensures Ahead(order, r[i], r[j]) {
      assert r[j] == t[j - 1];
      if i > 0 {
        assert r[i] == t[i - 1];
      }
    }
  }

  /** Insertion at the front of a sorted side. */
  lemma InsertSortedFront(x: OrderLevel, s: seq<OrderLevel>, order: Order)
    requires Sorted(s, order)
    requires s == [] || NotAfter(order, x, s[0])
    ensures Sorted(Insert(x, s, order), order)
    ensures StrictlySorted(s, order) && (forall k :: 0 <= k < |s| ==> s[k].price != x.price)
            ==> StrictlySorted(Insert(x, s, order), order)
  {
    assert Insert(x, s, order) == [x] + s;
    forall k | 0 <= k < |s| ensures NotAfter(order, x, s[k]) {
      assert k == 0 || NotAfter(order, s[0], s[k]);
    }
    SortedCons(x, s, order);
    if StrictlySorted(s, order) && (forall k :: 0 <= k < |s| ==> s[k].price != x.price) {
      forall k | 0 <= k < |s| ensures Ahead(order, x, s[k]) {
        assert s[0].price != x.price;
        assert k == 0 || Ahead(order, s[0], s[k]);
      }
      StrictlySortedCons(x, s, order);
    }
  }

  /** A bound on every level of `s` and on `x` bounds every level of an insertion of `x` into `s`. */
  lemma BoundOfInsert(y: OrderLevel, s: seq<OrderLevel>, x: OrderLevel, t: seq<OrderLevel>, order: Order, strict: bool)
    requires multiset(t) == multiset(s) + multiset{x}
    requires forall k :: 0 <= k < |s| ==> (if strict then Ahead(order, y, s[k]) else NotAfter(order, y, s[k]))
    requires if strict then Ahead(order, y, x) else NotAfter(order, y, x)
    ensures forall k :: 0 <= k < |t| ==> (if strict then Ahead(order, y, t[k]) else NotAfter(order, y, t[k]))
  {
    forall k | 0 <= k < |t| ensures if strict then Ahead(order, y, t[k]) else NotAfter(order, y, t[k]) {
      MemberOfInsert(s, x, t, t[k]);
      if t[k] != x {
        var m :| 0 <= m < |s| && s[m] == t[k];
      }
    }
  }

  /** Insertion behind the first level, given the insertion into the rest. */
  lemma InsertSortedSkip(x: OrderLevel, s: seq<OrderLevel>, order: Order)
    requires Sorted(s, order)
    requires s != [] && !NotAfter(order, x, s[0])
    requires Sorted(Insert(x, s[1..], order), order)
    requires StrictlySorted(s[1..], order) && (forall k :: 0 <= k < |s[1..]| ==> s[1..][k].price != x.price)
             ==> StrictlySorted(Insert(x, s[1..], order), order)
    ensures Sorted(Insert(x, s, order), order)
    ensures StrictlySorted(s, order) && (forall k :: 0 <= k < |s| ==> s[k].price != x.price)
            ==> StrictlySorted(Insert(x, s, order), order)
  {
    var t := Insert(x, s[1..], order);
    var rest := s[1..];
    assert Insert(x, s, order) == [s[0]] + t;
    assert forall k :: 0 <= k < |rest| ==> NotAfter(order, s[0], rest[k]) by {
      forall k | 0 <= k < |rest| ensures NotAfter(order, s[0], rest[k]) {
        assert rest[k] == s[k + 1];
      }
    }
    BoundOfInsert(s[0], rest, x, t, order, false);
    SortedCons(s[0], t, order);
    if StrictlySorted(s, order) && (forall k :: 0 <= k < |s| ==> s[k].price != x.price) {
      assert StrictlySorted(rest, order) && forall k :: 0 <= k < |rest| ==> Ahead(order, s[0], rest[k]) by {
        forall k | 0 <= k < |rest| ensures Ahead(order, s[0], rest[k]) {
          assert rest[k] == s[k + 1];
        }
        forall i, j | 0 <= i < j < |rest| ensures Ahead(order, rest[i], rest[j]) {
          assert rest[i] == s[i + 1] && rest[j] == s[j + 1];
        }
      }
      assert forall k :: 0 <= k < |rest| ==> rest[k].price != x.price by {
        forall k | 0 <= k < |rest| ensures rest[k].price != x.price {
          assert rest[k] == s[k + 1];
        }
      }
      BoundOfInsert(s[0], rest, x, t, order, true);
      StrictlySortedCons(s[0], t, order);
    }
  }

  /** Inserting into a sorted side keeps it sorted, and strictly so for a new price. */
  lemma {:induction false} InsertSorted(x: OrderLevel, s: seq<OrderLevel>, order: Order)
    requires Sorted(s, order)
    ensures Sorted(Insert(x, s, order), order)
    ensures StrictlySorted(s, order) && (forall k :: 0 <= k < |s| ==> s[k].price != x.price)
            ==> StrictlySorted(Insert(x, s, order), order)
  {
    if s == [] || NotAfter(order, x, s[0]) {
      InsertSortedFront(x, s, order);
    } else {
      assert Sorted(s[1..], order) by {
        forall i, j | 0 <= i < j < |s[1..]| ensures NotAfter(order, s[1..][i], s[1..][j]) {
          assert s[1..][i] == s[i + 1] && s[1..][j] == s[j + 1];
        }
      }
      InsertSorted(x, s[1..], order);
      InsertSortedSkip(x, s, order);
    }
  }

  /** With unique prices, no level of a permutation of the rest has the first level's price. */
  lemma RestHasOtherPrices(s: seq<OrderLevel>, t: seq<OrderLevel>)
    requires s != [] && UniquePrices(s)
    requires multiset(t) == multiset(s[1..])
    ensures forall k :: 0 <= k < |t| ==> t[k].price != s[0].price
  {
    forall k | 0 <= k < |t| ensures t[k].price != s[0].price {
      assert t[k] in multiset(s[1..]);
      var m :| 0 <= m < |s[1..]| && s[1..][m] == t[k];
      assert s[1 + m] == t[k];
    }
  }

  /** One step of the sort: inserting the first level into the sorted rest. */
  lemma SortStep(s: seq<OrderLevel>, t: seq<OrderLevel>, order: Order)
    requires s != []
    requires |t| == |s| - 1 && Sorted(t, order) && multiset(t) == multiset(s[1..])
    requires UniquePrices(s[1..]) ==> StrictlySorted(t, order)
    ensures |Insert(s[0], t, order)| == |s|
    ensures Sorted(Insert(s[0], t, order), order)
    ensures multiset(Insert(s[0], t, order)) == multiset(s)
    ensures UniquePrices(s) ==> StrictlySorted(Insert(s[0], t, order), order)
  {
    assert s == [s[0]] + s[1..];
    if UniquePrices(s) {
      assert UniquePrices(s[1..]) by {
        forall i, j | 0 <= i < j < |s[1..]| ensures s[1..][i].price != s[1..][j].price {
          assert s[1..][i] == s[i + 1] && s[1..][j] == s[j + 1];
        }
      }
      RestHasOtherPrices(s, t);
    }
    InsertSorted(s[0], t, order);
  }

  /**
   * Array.prototype.sort with the side's comparator: the result is sorted,
   * is a permutation of the input, and is strictly sorted when the input's
   * prices are unique. Stability is SortIsStable.
   */
  function SortLevels(s: seq<OrderLevel>, order: Order): (r: seq<OrderLevel>)
    ensures |r| == |s|
    ensures Sorted(r, order)
    ensures multiset(r) == multiset(s)
    ensures UniquePrices(s) ==> StrictlySorted(r, order)
  {
    if s == [] then []
    else
      var t := SortLevels(s[1..], order);
      SortStep(s, t, order);
      Insert(s[0], t, order)
  }

  /** WithPrice of a side with a level in front. */
  lemma WithPriceCons(y: OrderLevel, t: seq<OrderLevel>, p: real)
    ensures WithPrice([y] + t, p) == (if y.price == p then [y] else []) + WithPrice(t, p)
  {
    assert ([y] + t)[1..] == t;
  }

  /** The levels at a price are those at that price of the front level, then of the rest. */
  function Ties(x: OrderLevel, rest: seq<OrderLevel>, p: real): seq<OrderLevel> {
    (if x.price == p then [x] else []) + WithPrice(rest, p)
  }

  /** Inserting at the front. */
  lemma InsertKeepsTiesFront(x: OrderLevel, s: seq<OrderLevel>, order: Order, p: real)
    requires s == [] || NotAfter(order, x, s[0])
    ensures WithPrice(Insert(x, s, order), p) == Ties(x, s, p)
  {
    assert Insert(x, s, order) == [x] + s;
    WithPriceCons(x, s, p);
  }

  /** Two levels of different prices contribute to the levels at a price in either order. */
  lemma TiesCommute(a: OrderLevel, b: OrderLevel, w: seq<OrderLevel>, p: real)
    requires a.price != b.price
    ensures (if a.price == p then [a] else []) + ((if b.price == p then [b] else []) + w)
         == (if b.price == p then [b] else []) + ((if a.price == p then [a] else []) + w)
  {
    if a.price == p {
      assert (if b.price == p then [b] else []) == [];
    } else if b.price == p {
      assert (if a.price == p then [a] else []) == [];
    }
  }

  /** Inserting behind the first level, given the ties of the insertion into the rest. */
  lemma InsertKeepsTiesSkip(x: OrderLevel, s: seq<OrderLevel>, order: Order, p: real)
    requires s != [] && !NotAfter(order, x, s[0])
    requires WithPrice(Insert(x, s[1..], order), p) == Ties(x, s[1..], p)
    ensures WithPrice(Insert(x, s, order), p) == Ties(x, s, p)
  {
    var t := Insert(x, s[1..], order);
    assert Insert(x, s, order) == [s[0]] + t;
    WithPriceCons(s[0], t, p);
    TiesCommute(s[0], x, WithPrice(s[1..], p), p);
  }

  lemma {:induction false} InsertKeepsTies(x: OrderLevel, s: seq<OrderLevel>, order: Order, p: real)
    ensures WithPrice(Insert(x, s, order), p) == Ties(x, s, p)
  {
    if s == [] || NotAfter(order, x, s[0]) {
      InsertKeepsTiesFront(x, s, order, p);
    } else {
      InsertKeepsTies(x, s[1..], order, p);
      InsertKeepsTiesSkip(x, s, order, p);
    }
  }

  /**
   * The sort is stable: for every price, the levels at that price come out
   * in the order they went in.
   */
  lemma {:induction false} SortIsStable(s: seq<OrderLevel>, order: Order)
    ensures forall p :: WithPrice(SortLevels(s, order), p) == WithPrice(s, p)
  {
    if s != [] {
      SortIsStable(s[1..], order);
      forall p ensures WithPrice(SortLevels(s, order), p) == WithPrice(s, p) {
        InsertKeepsTies(s[0], SortLevels(s[1..], order), order, p);
      }
    }
  }

  /**
   * Two strictly sorted sides with the same levels are the same side: with
   * unique prices the sorted arrangement does not depend on the input order.
   */
  lemma {:induction false} StrictlySortedUnique(a: seq<OrderLevel>, b: seq<OrderLevel>, order: Order)
    requires StrictlySorted(a, order) && StrictlySorted(b, order)
    requires forall x :: x in a <==> x in b
    ensures a == b
  {
    if b != [] {
      assert b[0] in b;
    }
    if a != [] {
      assert a[0] in a;
      assert b != [];
      assert b[0] in b;
      assert a[0] == b[0] by {
        var i :| 0 <= i < |a| && a[i] == b[0];
        var j :| 0 <= j < |b| && b[j] == a[0];
        assert i == 0 || Ahead(order, a[0], a[i]);
        assert j == 0 || Ahead(order, b[0], b[j]);
      }
      forall x ensures x in a[1..] <==> x in b[1..] {
        if x in a[1..] {
          var i :| 0 <= i < |a[1..]| && a[1..][i] == x;
          assert Ahead(order, a[0], a[i + 1]);
          assert x in b;
          var j :| 0 <= j < |b| && b[j] == x;
          assert j != 0;
          assert b[1..][j - 1] == x;
        }
        if x in b[1..] {
          var j :| 0 <= j < |b[1..]| && b[1..][j] == x;
          assert Ahead(order, b[0], b[j + 1]);
          assert x in a;
          var i :| 0 <= i < |a| && a[i] == x;
          assert i != 0;
          assert a[1..][i - 1] == x;
        }
      }
      StrictlySortedUnique(a[1..], b[1..], order);
      assert a == [a[0]] + a[1..] && b == [b[0]] + b[1..];
    }
  }
}
