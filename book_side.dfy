/**
 * What the reconciliation engine does to one side of the book, as functions:
 * RebuiltSide is the snapshot branch, MergedSide is updateLevels. The lemmas
 * state what the engine promises about each.
 */
module BookSide {
  import opened Wrappers
  import opened Entities
  import opened LevelSort
  import opened RunningTotal
  import opened PriceMap

  /** `entries.map(e => ({ price: e.price, quantity: e.qty }))`. */
  function ToLevels(entries: seq<KrakenBookEntry>): seq<OrderLevel> {
    seq(|entries|, i requires 0 <= i < |entries| => OrderLevel(entries[i].price, entries[i].qty, None))
  }

  /** The `{price, quantity}` part of each level, without its total. */
  function Strip(s: seq<OrderLevel>): seq<OrderLevel> {
    seq(|s|, i requires 0 <= i < |s| => OrderLevel(s[i].price, s[i].quantity, None))
  }

  /** Levels whose prices and quantities agree position by position. */
  predicate SameLevels(a: seq<OrderLevel>, b: seq<OrderLevel>) {
    |a| == |b| && forall i :: 0 <= i < |a| ==> a[i].price == b[i].price && a[i].quantity == b[i].quantity
  }

  lemma {:induction false} SumQtyOfSameLevels(a: seq<OrderLevel>, b: seq<OrderLevel>)
    requires SameLevels(a, b)
    ensures SumQty(a) == SumQty(b)
  {
    if a != [] {
      SumQtyOfSameLevels(a[1..], b[1..]);
    }
  }

  lemma SortedOfSameLevels(a: seq<OrderLevel>, b: seq<OrderLevel>, order: Order)
    requires SameLevels(a, b)
    ensures Sorted(b, order) ==> Sorted(a, order)
    ensures StrictlySorted(b, order) ==> StrictlySorted(a, order)
  {
    forall i | 0 <= i < |a| ensures Rank(order, a[i]) == Rank(order, b[i]) {
    }
  }

  /** The totals RunningTotals attaches are prefix sums of the result itself. */
  lemma TotalsOfRunningTotals(s: seq<OrderLevel>)
    ensures SameLevels(RunningTotals(s, 0.0), s)
    ensures var r := RunningTotals(s, 0.0);
      forall i :: 0 <= i < |r| ==> r[i].total == Some(SumQty(r[..i + 1]))
  {
    var r := RunningTotals(s, 0.0);
    RunningTotalsArePrefixSums(s, 0.0);
    forall i | 0 <= i < |r| ensures r[i].total == Some(SumQty(r[..i + 1])) {
      SumQtyOfSameLevels(r[..i + 1], s[..i + 1]);
    }
  }

  // ----- Snapshot branch -----

  /** One side rebuilt from a snapshot message: sort, then attach running totals. */
  function RebuiltSide(entries: seq<KrakenBookEntry>, order: Order): seq<OrderLevel> {
    RunningTotals(SortLevels(ToLevels(entries), order), 0.0)
  }

  /** The `{price, quantity}` part of a snapshot side is the sorted message entries. */
  lemma RebuiltSideLevels(entries: seq<KrakenBookEntry>, order: Order)
    ensures Strip(RebuiltSide(entries, order)) == SortLevels(ToLevels(entries), order)
  {
    var levels := ToLevels(entries);
    var s := SortLevels(levels, order);
    var r := RebuiltSide(entries, order);
    RunningTotalsArePrefixSums(s, 0.0);
    forall i | 0 <= i < |s| ensures Strip(r)[i] == s[i] {
      assert s[i] in multiset(levels);
    }
  }

  /**
   * A snapshot side holds exactly the message's entries (qty copied to
   * quantity), sorted in the side's order, equal prices in arrival order,
   * and each total is the sum of the quantities up to and including it.
   */
  lemma RebuiltSideCorrect(entries: seq<KrakenBookEntry>, order: Order)
    ensures |RebuiltSide(entries, order)| == |entries|
    ensures Sorted(RebuiltSide(entries, order), order)
    ensures multiset(Strip(RebuiltSide(entries, order))) == multiset(ToLevels(entries))
    ensures forall p :: WithPrice(Strip(RebuiltSide(entries, order)), p) == WithPrice(ToLevels(entries), p)
    ensures var r := RebuiltSide(entries, order);
      forall i :: 0 <= i < |r| ==> r[i].total == Some(SumQty(r[..i + 1]))
  {
    var s := SortLevels(ToLevels(entries), order);
    var r := RebuiltSide(entries, order);
    assert r == RunningTotals(s, 0.0);
    TotalsOfRunningTotals(s);
    SortedOfSameLevels(r, s, order);
    RebuiltSideLevels(entries, order);
    SortIsStable(ToLevels(entries), order);
  }

  // ----- Delta branch (updateLevels) -----

  /** `new Map(levels.map(l => [l.price, l.quantity]))`: a repeated price keeps its last quantity. */
  function LevelMap(levels: seq<OrderLevel>): map<real, real> {
    if levels == [] then map[]
    else
      var n := |levels| - 1;
      LevelMap(levels[..n])[levels[n].price := levels[n].quantity]
  }

  /** The ordered entries the Map constructor builds from `levels`. */
  function FromLevels(levels: seq<OrderLevel>): (e: Entries)
    ensures AsMap(e) == LevelMap(levels)
    ensures UniqueKeys(e)
  {
    if levels == [] then []
    else
      var n := |levels| - 1;
      Put(FromLevels(levels[..n]), levels[n].price, levels[n].quantity)
  }

  /** One update on the abstract map: quantity 0 deletes, anything else overwrites. */
  function MapStep(m: map<real, real>, u: KrakenBookEntry): map<real, real> {
    if u.qty == 0.0 then m - {u.price} else m[u.price := u.qty]
  }

  /** The updates applied in order to the abstract map. */
  function ApplyUpdates(m: map<real, real>, us: seq<KrakenBookEntry>): map<real, real> {
    if us == [] then m
    else
      var n := |us| - 1;
      MapStep(ApplyUpdates(m, us[..n]), us[n])
  }

  /** The body of the `forEach`: `delete` for quantity 0, otherwise `set`. */
  function EntryStep(e: Entries, u: KrakenBookEntry): Entries {
    if u.qty == 0.0 then Delete(e, u.price) else Put(e, u.price, u.qty)
  }

  /** The `forEach` over the updates, on the ordered entries. */
  function ApplyAll(e: Entries, us: seq<KrakenBookEntry>): (r: Entries)
    ensures AsMap(r) == ApplyUpdates(AsMap(e), us)
    ensures UniqueKeys(e) ==> UniqueKeys(r)
  {
    if us == [] then e
    else
      var n := |us| - 1;
      EntryStep(ApplyAll(e, us[..n]), us[n])
  }

  /** `Array.from(map.entries()).map(([price, quantity]) => ({ price, quantity }))`. */
  function EntryLevels(e: Entries): seq<OrderLevel> {
    seq(|e|, i requires 0 <= i < |e| => OrderLevel(e[i].0, e[i].1, None))
  }

  /** updateLevels: merge the updates into the side, re-sort, recompute totals. */
  function MergedSide(current: seq<OrderLevel>, updates: seq<KrakenBookEntry>, order: Order): seq<OrderLevel> {
    RunningTotals(SortLevels(EntryLevels(ApplyAll(FromLevels(current), updates)), order), 0.0)
  }

  /** The quantity of the last update naming price `p`, if any. */
  function LastUpdate(us: seq<KrakenBookEntry>, p: real): Option<real> {
    if us == [] then None
    else
      var n := |us| - 1;
      if us[n].price == p then Some(us[n].qty) else LastUpdate(us[..n], p)
  }

  /**
   * Within one batch the last update for a price wins: 0 removes the price
   * (a no-op if absent), any other quantity leaves exactly that quantity, and
   * a price no update names keeps what it had.
   */
  lemma {:induction false} ApplyUpdatesAt(m: map<real, real>, us: seq<KrakenBookEntry>, p: real)
    ensures LastUpdate(us, p) == None ==>
      (p in ApplyUpdates(m, us) <==> p in m) && (p in m ==> ApplyUpdates(m, us)[p] == m[p])
    ensures LastUpdate(us, p) == Some(0.0) ==> p !in ApplyUpdates(m, us)
    ensures LastUpdate(us, p).Some? && LastUpdate(us, p).value != 0.0 ==>
      p in ApplyUpdates(m, us) && ApplyUpdates(m, us)[p] == LastUpdate(us, p).value
  {
    if us != [] {
      var n := |us| - 1;
      if us[n].price != p {
        ApplyUpdatesAt(m, us[..n], p);
      }
    }
  }

  /** Applying the same batch twice gives what applying it once gives. */
  lemma ApplyUpdatesIdempotent(m: map<real, real>, us: seq<KrakenBookEntry>)
    ensures ApplyUpdates(ApplyUpdates(m, us), us) == ApplyUpdates(m, us)
  {
    var once := ApplyUpdates(m, us);
    var twice := ApplyUpdates(once, us);
    forall p ensures (p in twice <==> p in once) && (p in once ==> twice[p] == once[p]) {
      ApplyUpdatesAt(m, us, p);
      ApplyUpdatesAt(once, us, p);
    }
  }

  /** With unique prices every level is what the level map holds for its price. */
  lemma {:induction false} LevelMapAt(levels: seq<OrderLevel>, i: nat)
    requires UniquePrices(levels)
    requires i < |levels|
    ensures levels[i].price in LevelMap(levels) && LevelMap(levels)[levels[i].price] == levels[i].quantity
  {
    var n := |levels| - 1;
    if i < n {
      LevelMapAt(levels[..n], i);
    }
  }

  lemma {:induction false} LevelMapHasLevel(levels: seq<OrderLevel>, k: real)
    requires k in LevelMap(levels)
    ensures exists i :: 0 <= i < |levels| && levels[i].price == k
  {
    var n := |levels| - 1;
    if levels[n].price != k {
      LevelMapHasLevel(levels[..n], k);
    }
  }

  lemma {:induction false} LevelMapOfSameLevels(a: seq<OrderLevel>, b: seq<OrderLevel>)
    requires SameLevels(a, b)
    ensures LevelMap(a) == LevelMap(b)
  {
    if a != [] {
      var n := |a| - 1;
      LevelMapOfSameLevels(a[..n], b[..n]);
    }
  }

  /** The levels read back from a JavaScript Map are exactly its entries. */
  lemma EntryLevelsMember(e: Entries, x: OrderLevel)
    requires UniqueKeys(e)
    ensures x in EntryLevels(e) <==> x.total == None && x.price in AsMap(e) && AsMap(e)[x.price] == x.quantity
  {
    var levels := EntryLevels(e);
    if x in levels {
      var j :| 0 <= j < |levels| && levels[j] == x;
      AsMapAt(e, j);
    }
    if x.total == None && x.price in AsMap(e) && AsMap(e)[x.price] == x.quantity {
      AsMapHasEntry(e, x.price);
      var j :| 0 <= j < |e| && e[j].0 == x.price;
      AsMapAt(e, j);
      assert levels[j] == x;
    }
  }

  /** Sorting the entries of a Map gives strictly sorted levels. */
  lemma SortedEntriesStrict(e: Entries, order: Order)
    requires UniqueKeys(e)
    ensures StrictlySorted(SortLevels(EntryLevels(e), order), order)
  {
  }

  /** A permutation has the same members. */
  lemma PermutationMembers(a: seq<OrderLevel>, b: seq<OrderLevel>)
    requires multiset(a) == multiset(b)
    ensures forall x :: x in a <==> x in b
  {
    forall x ensures x in a <==> x in b {
      assert x in a <==> x in multiset(a);
      assert x in b <==> x in multiset(b);
    }
  }

  /** A strictly sorted side has unique prices. */
  lemma StrictlySortedUniquePrices(s: seq<OrderLevel>, order: Order)
    requires StrictlySorted(s, order)
    ensures UniquePrices(s)
  {
    forall i, j | 0 <= i < j < |s| ensures s[i].price != s[j].price {
      assert Ahead(order, s[i], s[j]);
    }
  }

  /** The price map of levels with unique prices that are exactly a Map's entries is that Map. */
  lemma LevelMapOfEntries(e: Entries, s: seq<OrderLevel>)
    requires UniqueKeys(e) && UniquePrices(s)
    requires forall x :: x in s <==> x in EntryLevels(e)
    ensures LevelMap(s) == AsMap(e)
  {
    var levels := EntryLevels(e);
    forall k | k in LevelMap(s) ensures k in AsMap(e) && AsMap(e)[k] == LevelMap(s)[k] {
      LevelMapHasLevel(s, k);
      var i :| 0 <= i < |s| && s[i].price == k;
      LevelMapAt(s, i);
      EntryLevelsMember(e, s[i]);
    }
    forall k | k in AsMap(e) ensures k in LevelMap(s) {
      AsMapHasEntry(e, k);
      var j :| 0 <= j < |e| && e[j].0 == k;
      assert levels[j] in s;
      var i :| 0 <= i < |s| && s[i] == levels[j];
      LevelMapAt(s, i);
    }
  }

  /** Sorting the entries of a Map gives one strictly sorted level per key. */
  lemma SortedEntries(e: Entries, order: Order)
    requires UniqueKeys(e)
    ensures StrictlySorted(SortLevels(EntryLevels(e), order), order)
    ensures forall x :: x in SortLevels(EntryLevels(e), order) <==> x in EntryLevels(e)
    ensures LevelMap(SortLevels(EntryLevels(e), order)) == AsMap(e)
  {
    var s := SortLevels(EntryLevels(e), order);
    SortedEntriesStrict(e, order);
    PermutationMembers(s, EntryLevels(e));
    StrictlySortedUniquePrices(s, order);
    LevelMapOfEntries(e, s);
  }

  /**
   * The merged side, read as a price-to-quantity map, is the old side's map
   * with the updates applied in order.
   */
  lemma MergedSideMap(current: seq<OrderLevel>, updates: seq<KrakenBookEntry>, order: Order)
    ensures LevelMap(MergedSide(current, updates, order)) == ApplyUpdates(LevelMap(current), updates)
  {
    var e := ApplyAll(FromLevels(current), updates);
    var s := SortLevels(EntryLevels(e), order);
    SortedEntries(e, order);
    TotalsOfRunningTotals(s);
    LevelMapOfSameLevels(RunningTotals(s, 0.0), s);
  }

  /**
   * The merged side is strictly sorted in the requested order, so its prices
   * are unique, and each total is the running sum of the quantities.
   */
  lemma MergedSideShape(current: seq<OrderLevel>, updates: seq<KrakenBookEntry>, order: Order)
    ensures StrictlySorted(MergedSide(current, updates, order), order)
    ensures UniquePrices(MergedSide(current, updates, order))
    ensures var r := MergedSide(current, updates, order);
      forall i :: 0 <= i < |r| ==> r[i].total == Some(SumQty(r[..i + 1]))
  {
    var e := ApplyAll(FromLevels(current), updates);
    var s := SortLevels(EntryLevels(e), order);
    var r := MergedSide(current, updates, order);
    assert r == RunningTotals(s, 0.0);
    SortedEntriesStrict(e, order);
    TotalsOfRunningTotals(s);
    SortedOfSameLevels(r, s, order);
    forall i, j | 0 <= i < j < |r| ensures r[i].price != r[j].price {
      assert Ahead(order, r[i], r[j]);
    }
    forall i | 0 <= i < |r| ensures r[i].total == Some(SumQty(r[..i + 1])) {
      assert RunningTotals(s, 0.0)[i] == r[i];
    }
  }

  /**
   * Per price: after updateLevels a price whose last update has quantity 0 is
   * gone, one whose last update has quantity q != 0 has quantity q, and one no
   * update names has the quantity it had (or is still absent).
   */
  lemma MergedSideAt(current: seq<OrderLevel>, updates: seq<KrakenBookEntry>, order: Order, p: real)
    ensures var after := LevelMap(MergedSide(current, updates, order));
      var before := LevelMap(current);
      && (LastUpdate(updates, p) == None ==> (p in after <==> p in before) && (p in before ==> after[p] == before[p]))
      && (LastUpdate(updates, p) == Some(0.0) ==> p !in after)
      && (LastUpdate(updates, p).Some? && LastUpdate(updates, p).value != 0.0 ==>
            p in after && after[p] == LastUpdate(updates, p).value)
  {
    MergedSideMap(current, updates, order);
    ApplyUpdatesAt(LevelMap(current), updates, p);
  }

  /** Applying the same update list twice gives the same side as applying it once. */
  lemma MergedSideIdempotent(current: seq<OrderLevel>, updates: seq<KrakenBookEntry>, order: Order)
    ensures MergedSide(MergedSide(current, updates, order), updates, order) == MergedSide(current, updates, order)
  {
    var once := MergedSide(current, updates, order);
    var e1 := ApplyAll(FromLevels(current), updates);
    var e2 := ApplyAll(FromLevels(once), updates);
    MergedSideMap(current, updates, order);
    ApplyUpdatesIdempotent(LevelMap(current), updates);
    assert AsMap(e2) == AsMap(e1);
    SortedEntries(e1, order);
    SortedEntries(e2, order);
    forall x ensures x in EntryLevels(e1) <==> x in EntryLevels(e2) {
      EntryLevelsMember(e1, x);
      EntryLevelsMember(e2, x);
    }
    StrictlySortedUnique(SortLevels(EntryLevels(e1), order), SortLevels(EntryLevels(e2), order), order);
  }
}
