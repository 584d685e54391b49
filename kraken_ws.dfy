/**
 * KrakenWsService, the reconciliation engine: routes decoded feed messages,
 * rebuilds the book from a snapshot or merges a delta into it, and throttles
 * how often a published snapshot comes out. The socket, JSON decoding and
 * logging are not part of this model; `now` is the processing instant in ms.
 */
module KrakenWs {
  import opened Wrappers
  import opened Entities
  import opened LevelSort
  import opened RunningTotal
  import opened PriceMap
  import opened BookSide

  /** The minimum gap between two published snapshots, in ms. */
  const UiThrottle: int := 100

  /** The engine's current book; both sides carry totals. */
  datatype Book = Book(bids: seq<OrderLevel>, asks: seq<OrderLevel>)

  /** The `onmessage` routing test: only book snapshots and updates are processed. */
  predicate IsBookMessage(msg: KrakenWsMessage) {
    msg.channel == "book" && (msg.msgType == "snapshot" || msg.msgType == "update")
  }

  /**
   * The book after processMessage: unchanged without a `data[0]`, rebuilt
   * from `data[0]` alone for a snapshot, merged with it otherwise.
   */
  function NextBook(book: Book, msg: KrakenWsMessage): Book {
    if msg.data == [] then book
    else
      var data := msg.data[0];
      if msg.msgType == "snapshot" then Book(RebuiltSide(data.bids, Desc), RebuiltSide(data.asks, Asc))
      else Book(MergedSide(book.bids, data.bids, Desc), MergedSide(book.asks, data.asks, Asc))
  }

  /**
   * A snapshot message discards the prior book: each side afterwards holds
   * exactly the message's entries for that side, whatever the book held.
   */
  lemma SnapshotDiscardsPriorBook(book: Book, msg: KrakenWsMessage)
    requires msg.msgType == "snapshot" && msg.data != []
    ensures multiset(Strip(NextBook(book, msg).bids)) == multiset(ToLevels(msg.data[0].bids))
    ensures multiset(Strip(NextBook(book, msg).asks)) == multiset(ToLevels(msg.data[0].asks))
    ensures Sorted(NextBook(book, msg).bids, Desc) && Sorted(NextBook(book, msg).asks, Asc)
  {
    RebuiltSideCorrect(msg.data[0].bids, Desc);
    RebuiltSideCorrect(msg.data[0].asks, Asc);
  }

  /** A side in its order whose totals are the running sums of its quantities. */
  predicate WellFormedSide(s: seq<OrderLevel>, order: Order) {
    Sorted(s, order) && forall i :: 0 <= i < |s| ==> s[i].total == Some(SumQty(s[..i + 1]))
  }

  /** Bids descending, asks ascending, both with running totals. */
  predicate WellFormed(book: Book) {
    WellFormedSide(book.bids, Desc) && WellFormedSide(book.asks, Asc)
  }

  /** Every processed message keeps the book well formed. */
  lemma NextBookWellFormed(book: Book, msg: KrakenWsMessage)
    requires WellFormed(book)
    ensures WellFormed(NextBook(book, msg))
  {
    if msg.data != [] {
      var data := msg.data[0];
      if msg.msgType == "snapshot" {
        RebuiltSideCorrect(data.bids, Desc);
        RebuiltSideCorrect(data.asks, Asc);
      } else {
        MergedSideShape(book.bids, data.bids, Desc);
        MergedSideShape(book.asks, data.asks, Asc);
        StrictlySortedIsSorted(MergedSide(book.bids, data.bids, Desc), Desc);
        StrictlySortedIsSorted(MergedSide(book.asks, data.asks, Asc), Asc);
      }
    }
  }

  /** Processing the same message twice leaves the book as processing it once does. */
  lemma NextBookIdempotent(book: Book, msg: KrakenWsMessage)
    ensures NextBook(NextBook(book, msg), msg) == NextBook(book, msg)
  {
    if msg.data != [] && msg.msgType != "snapshot" {
      MergedSideIdempotent(book.bids, msg.data[0].bids, Desc);
      MergedSideIdempotent(book.asks, msg.data[0].asks, Asc);
    }
  }

  /** Whether processMessage publishes a snapshot: there is a `data[0]` and the throttle has passed. */
  predicate Emits(lastUiUpdate: int, msg: KrakenWsMessage, now: int) {
    msg.data != [] && now - lastUiUpdate > UiThrottle
  }

  /** The running-total `map` of both branches: each level gets the sum of the quantities so far. */
  method AttachTotals(levels: seq<OrderLevel>) returns (r: seq<OrderLevel>)
    ensures r == RunningTotals(levels, 0.0)
  {
    var total := 0.0;
    r := [];
    var i := 0;
    while i < |levels|
      invariant 0 <= i <= |levels|
      invariant total == SumQty(levels[..i])
      invariant |r| == i
      invariant forall k :: 0 <= k < i ==>
        r[k] == OrderLevel(levels[k].price, levels[k].quantity, Some(SumQty(levels[..k + 1])))
    {
      assert levels[..i + 1] == levels[..i] + [levels[i]];
      SumQtyAppend(levels[..i], levels[i]);
      total := total + levels[i].quantity;
      r := r + [OrderLevel(levels[i].price, levels[i].quantity, Some(total))];
      i := i + 1;
    }
    RunningTotalsArePrefixSums(levels, 0.0);
  }

  /**
   * updateLevels: load the side into a Map, apply the updates in order
   * (quantity 0 deletes, anything else sets), sort the entries in `order`
   * and attach running totals.
   */
  method UpdateLevels(current: seq<OrderLevel>, updates: seq<KrakenBookEntry>, order: Order)
    returns (levels: seq<OrderLevel>)
    ensures levels == MergedSide(current, updates, order)
  {
    var m: Entries := [];
    var i := 0;
    while i < |current|
      invariant 0 <= i <= |current|
      invariant m == FromLevels(current[..i])
    {
      assert current[..i + 1][..i] == current[..i];
      m := Put(m, current[i].price, current[i].quantity);
      i := i + 1;
    }
    assert current[..|current|] == current;
    var j := 0;
    while j < |updates|
      invariant 0 <= j <= |updates|
      invariant m == ApplyAll(FromLevels(current), updates[..j])
    {
      assert updates[..j + 1][..j] == updates[..j];
      var u := updates[j];
      if u.qty == 0.0 {
        m := Delete(m, u.price);
      } else {
        m := Put(m, u.price, u.qty);
      }
      j := j + 1;
    }
    assert updates[..|updates|] == updates;
    var sorted := SortLevels(EntryLevels(m), order);
    levels := AttachTotals(sorted);
  }

  /**
   * The book-changing part of processMessage: the snapshot branch sorts each
   * side of `data[0]` and attaches totals, the update branch runs
   * updateLevels on each side. Without a `data[0]` the book is returned as is.
   */
  method Reconcile(book: Book, msg: KrakenWsMessage) returns (next: Book)
    ensures next == NextBook(book, msg)
  {
    if msg.data == [] {
      return book;
    }
    var data := msg.data[0];
    if msg.msgType == "snapshot" {
      var bids := AttachTotals(SortLevels(ToLevels(data.bids), Desc));
      var asks := AttachTotals(SortLevels(ToLevels(data.asks), Asc));
      next := Book(bids, asks);
    } else {
      var bids := UpdateLevels(book.bids, data.bids, Desc);
      var asks := UpdateLevels(book.asks, data.asks, Asc);
      next := Book(bids, asks);
    }
  }

  /** The instant of the last published snapshot, 0 before the first. */
  function LastEmitted(emitted: seq<int>): int {
    if emitted == [] then 0 else emitted[|emitted| - 1]
  }

  /**
   * Publication instants that the throttle lets through: the first comes more
   * than UiThrottle ms after instant 0, and each next one more than UiThrottle
   * ms after the one before.
   */
  predicate Spaced(emitted: seq<int>) {
    && (emitted != [] ==> emitted[0] > UiThrottle)
    && forall i :: 0 < i < |emitted| ==> emitted[i] - emitted[i - 1] > UiThrottle
  }

  /** Publishing when the throttle has passed keeps the instants spaced. */
  lemma SpacedAppend(emitted: seq<int>, now: int)
    requires Spaced(emitted)
    requires now - LastEmitted(emitted) > UiThrottle
    ensures Spaced(emitted + [now]) && LastEmitted(emitted + [now]) == now
  {
    var e := emitted + [now];
    forall i | 0 < i < |e| ensures e[i] - e[i - 1] > UiThrottle {
      if i < |emitted| {
        assert e[i] == emitted[i] && e[i - 1] == emitted[i - 1];
      }
    }
  }

  class KrakenWsService {
    const symbol: string
    var currentBook: Book
    var lastUiUpdate: int
    /** The instants of the snapshots published so far, oldest first. */
    ghost var emitted: seq<int>

    /**
     * `lastUiUpdate` is the instant of the last published snapshot (0 before
     * the first), published snapshots are more than UiThrottle ms apart, and
     * the book is well formed.
     */
    ghost predicate Valid()
      reads this
    {
      lastUiUpdate == LastEmitted(emitted) && Spaced(emitted) && WellFormed(currentBook)
    }

    constructor (symbol: string)
      ensures Valid()
      ensures this.symbol == symbol
      ensures currentBook == Book([], []) && lastUiUpdate == 0 && emitted == []
    {
      this.symbol := symbol;
      currentBook := Book([], []);
      lastUiUpdate := 0;
      emitted := [];
    }

    /**
     * processMessage: updates the book from `msg.data[0]` and publishes a
     * snapshot of it, stamped `now`, when more than UiThrottle ms have passed
     * since the last one. Without a `data[0]` nothing changes.
     */
    method ProcessMessage(msg: KrakenWsMessage, now: int) returns (snap: Option<OrderBookSnapshot>)
      requires Valid()
      modifies this
      ensures Valid()
      ensures currentBook == NextBook(old(currentBook), msg)
      ensures snap == if Emits(old(lastUiUpdate), msg, now)
                      then Some(OrderBookSnapshot(currentBook.bids, currentBook.asks, now, symbol))
                      else None
      ensures lastUiUpdate == if Emits(old(lastUiUpdate), msg, now) then now else old(lastUiUpdate)
      ensures emitted == if Emits(old(lastUiUpdate), msg, now) then old(emitted) + [now] else old(emitted)
    {
      if msg.data == [] {
        return None;
      }
      NextBookWellFormed(currentBook, msg);
      currentBook := Reconcile(currentBook, msg);
      if now - lastUiUpdate > UiThrottle {
        snap := Some(OrderBookSnapshot(currentBook.bids, currentBook.asks, now, symbol));
        SpacedAppend(emitted, now);
        lastUiUpdate := now;
        emitted := emitted + [now];
      } else {
        snap := None;
      }
    }

    /**
     * `onmessage`: a message that failed to decode (None) or is not a book
     * snapshot or update is dropped without any change; any other goes to
     * ProcessMessage, whose result the handler discards.
     */
    method OnMessage(parsed: Option<KrakenWsMessage>, now: int)
      requires Valid()
      modifies this
      ensures Valid()
      ensures parsed.Some? && IsBookMessage(parsed.value) ==>
        && currentBook == NextBook(old(currentBook), parsed.value)
        && lastUiUpdate == (if Emits(old(lastUiUpdate), parsed.value, now) then now else old(lastUiUpdate))
        && emitted == (if Emits(old(lastUiUpdate), parsed.value, now) then old(emitted) + [now] else old(emitted))
      ensures !(parsed.Some? && IsBookMessage(parsed.value)) ==>
        currentBook == old(currentBook) && lastUiUpdate == old(lastUiUpdate) && emitted == old(emitted)
    {
      if parsed.Some? && IsBookMessage(parsed.value) {
        var ignored := ProcessMessage(parsed.value, now);
      }
    }
  }
}
