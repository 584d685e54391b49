/**
 * The JavaScript `Map<number, number>` from price to quantity that
 * updateLevels builds: a list of `(price, quantity)` entries in insertion
 * order. `set` on a present key overwrites the value in place, `set` on a new
 * key appends, `delete` removes the key. AsMap is the abstract map.
 */
module PriceMap {
  type Entries = seq<(real, real)>

  /** The map the entries stand for (the first entry for a key wins). */
  function AsMap(e: Entries): map<real, real> {
    if e == [] then map[] else AsMap(e[1..])[e[0].0 := e[0].1]
  }

  /** No key occurs twice, as in every JavaScript Map. */
  predicate UniqueKeys(e: Entries) {
    forall i, j :: 0 <= i < j < |e| ==> e[i].0 != e[j].0
  }

  /** `map.set(k, v)`. */
  function Put(e: Entries, k: real, v: real): (r: Entries)
    ensures AsMap(r) == AsMap(e)[k := v]
    ensures forall x :: x in r ==> x in e || x == (k, v)
    ensures UniqueKeys(e) ==> UniqueKeys(r)
  {
    if e == [] then [(k, v)]
    else if e[0].0 == k then [(k, v)] + e[1..]
    else
      var t := Put(e[1..], k, v);
      assert UniqueKeys(e) ==> forall j :: 0 <= j < |t| ==> t[j].0 != e[0].0 by {
        if UniqueKeys(e) {
          forall j | 0 <= j < |t| ensures t[j].0 != e[0].0 {
            assert t[j] in t;
            if t[j] != (k, v) {
              var m :| 0 <= m < |e[1..]| && e[1..][m] == t[j];
              assert e[1 + m] == t[j];
            }
          }
        }
      }
      [e[0]] + t
  }

  /** `map.delete(k)`: a silent no-op when `k` is absent. */
  function Delete(e: Entries, k: real): (r: Entries)
    ensures AsMap(r) == AsMap(e) - {k}
    ensures forall x :: x in r ==> x in e
    ensures UniqueKeys(e) ==> UniqueKeys(r)
  {
    if e == [] then []
    else if e[0].0 == k then Delete(e[1..], k)
    else
      var t := Delete(e[1..], k);
      assert UniqueKeys(e) ==> forall j :: 0 <= j < |t| ==> t[j].0 != e[0].0 by {
        if UniqueKeys(e) {
          forall j | 0 <= j < |t| ensures t[j].0 != e[0].0 {
            assert t[j] in t;
            var m :| 0 <= m < |e[1..]| && e[1..][m] == t[j];
            assert e[1 + m] == t[j];
          }
        }
      }
      [e[0]] + t
  }

  /** With unique keys every entry is what the map holds for its key. */
  lemma {:induction false} AsMapAt(e: Entries, i: nat)
    requires UniqueKeys(e)
    requires i < |e|
    ensures e[i].0 in AsMap(e) && AsMap(e)[e[i].0] == e[i].1
  {
    if i > 0 {
      AsMapAt(e[1..], i - 1);
    }
  }

  /** Every key of the map comes from an entry. */
  lemma {:induction false} AsMapHasEntry(e: Entries, k: real)
    requires k in AsMap(e)
    ensures exists i :: 0 <= i < |e| && e[i].0 == k
  {
    if e[0].0 != k {
      AsMapHasEntry(e[1..], k);
      var i :| 0 <= i < |e[1..]| && e[1..][i].0 == k;
      assert e[i + 1].0 == k;
    }
  }
}
