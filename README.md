# KronosL2 order book: a Dafny model

KronosL2 is a browser dashboard for the Kraken level-2 order book. Its core is
`KrakenWsService`, a reconciliation engine. It takes decoded `book` messages from
the Kraken feed. A `snapshot` rebuilds both sides of the book. An `update` merges
a delta into the book through a price-to-quantity map. Every side is kept sorted,
bids descending and asks ascending, and each level carries a running cumulative
`total`. A throttle lets a published snapshot out at most once per 100 ms.

Beside it sits the replay controller `useOrderBookReadService`. It has five state
cells: the live snapshot, the history of frames, the pause flag, the replay cursor
and the connection flag. It derives the `activeSnapshot` from them and exposes the
`pause`, `resume`, `goToHistory`, `reset` and `disconnect` actions. The App
component drives the same cells: Space toggles pause, the arrow keys move the
cursor, and there is a pause button and a history slider.

Files, one module each:

- `wrappers.dfy`: `Option`.
- `entities.dfy`: the records `OrderLevel`, `KrakenBookEntry`, `KrakenWsMessage`
  (with its `data[]` element `BookData`), `OrderBookSnapshot` and `HistoryFrame`.
- `level_sort.dfy`: the two side orders. JavaScript's stable `Array.prototype.sort`
  is written as a stable insertion sort.
- `running_total.dfy`: the running-total pass and its prefix-sum identity.
- `price_map.dfy`: the JavaScript `Map` as an insertion-ordered entry list. `set`
  overwrites in place or appends; `delete` removes.
- `book_side.dfy`: the snapshot branch (`RebuiltSide`) and `updateLevels`
  (`MergedSide`) as functions, plus the lemmas about them.
- `kraken_ws.dfy`: the class `KrakenWsService` with `currentBook` and
  `lastUiUpdate` fields. Its `processMessage` and the `onmessage` routing are
  methods. `updateLevels` and the totals `map` are loops, each proved equal to the
  `book_side.dfy` function.
- `read_service.dfy`: the class `OrderBookReadService` with the five cells, the
  `activeSnapshot` function and the actions.
- `app.dfy`: the key handler, the pause button, the slider handler and the slider
  value.

Prices and quantities are mathematical reals. Timestamps are integer
milliseconds. `Date.now()` becomes a `now` parameter, and `JSON.parse` becomes an
`Option`: `None` stands for a frame that does not parse. The ghost field
`emitted` of `KrakenWsService` records the instants of the published snapshots.
The class invariant `Valid()` says that `lastUiUpdate` is the last of them (0
before the first), that any two consecutive ones are more than 100 ms apart, and
that the book is well formed: bids descending and asks ascending, both with
running totals.

Behaviours of the code worth knowing:

- `goToHistory` ignores an out-of-range index; it does not clamp it.
- Nothing ever appends to `history`. `processMessage`'s result is dropped by
  `onmessage`, so `liveSnapshot` is never set to a snapshot; only `reset()`
  writes it, to null.
- A snapshot message keeps repeated prices as separate levels, with no dedupe.
  `updateLevels` folds repeated prices into one level through its `Map`.
- An update whose quantity is negative is stored like any other non-zero quantity.
- `isConnected` is never set to true.
- App reads `.value` on fields that the read service returns as plain values, and
  it uses a `historyIndex` field that the read service does not return. The model
  puts the handlers' intended transitions on the read service's own cells.

## Model

| member | source | states |
|---|---|---|
| LevelSort.Insert | src/infrastructure/krakenWS.repository.ts:47 | inserting a level adds exactly that level to the multiset of the side |
| LevelSort.InsertSorted | src/infrastructure/krakenWS.repository.ts:47-51 | inserting into a sorted side keeps it sorted; strictly so when the side is strict and the price is new |
| LevelSort.SortLevels | src/infrastructure/krakenWS.repository.ts:47-51 | the sort with the side's comparator returns a sorted permutation of its input with the same length, strictly sorted when the prices are unique |
| LevelSort.InsertKeepsTies | src/infrastructure/krakenWS.repository.ts:47-51 | the inserted level goes in front of every level of its own price |
| LevelSort.SortIsStable | src/infrastructure/krakenWS.repository.ts:47-51 | the sort is stable: for every price, the levels at that price keep their input order |
| LevelSort.StrictlySortedUnique | src/infrastructure/krakenWS.repository.ts:81-83 | two strictly sorted sides with the same levels are equal, so a sort of unique prices does not depend on the Map's iteration order |
| RunningTotal.RunningTotals | src/infrastructure/krakenWS.repository.ts:48-53 | the totals pass keeps the number of levels |
| RunningTotal.RunningTotalsArePrefixSums | src/infrastructure/krakenWS.repository.ts:48-53 | level i keeps its price and quantity, and its total is the start value plus the quantities of levels 0..i |
| RunningTotal.TotalsNonDecreasing | src/infrastructure/krakenWS.repository.ts:48-49 | with non-negative quantities the totals never decrease along the side |
| RunningTotal.LastTotalIsDepth | src/infrastructure/krakenWS.repository.ts:48-49 | the last total of a side is the total quantity of the side |
| PriceMap.Put | src/infrastructure/krakenWS.repository.ts:79 | `map.set(k, v)` gives the old map with k mapped to v, adds no entry other than (k, v), and keeps the keys unique |
| PriceMap.Delete | src/infrastructure/krakenWS.repository.ts:78 | `map.delete(k)` gives the old map without k (a no-op when k is absent), adds no entry, and keeps the keys unique |
| PriceMap.AsMapAt | src/infrastructure/krakenWS.repository.ts:81 | with unique keys every entry the Map yields is the value the map holds for its key |
| PriceMap.AsMapHasEntry | src/infrastructure/krakenWS.repository.ts:81 | every key of the map is yielded by some entry |
| BookSide.ToLevels | src/infrastructure/krakenWS.repository.ts:47-51 | the `{price, quantity: qty}` mapping of the message entries; what the snapshot side keeps of it is stated by BookSide.RebuiltSideCorrect (same length, a stable permutation of these levels) |
| BookSide.RebuiltSide | src/infrastructure/krakenWS.repository.ts:47-53 | one snapshot side: sort then running totals; its promise is stated by BookSide.RebuiltSideCorrect and BookSide.RebuiltSideLevels |
| BookSide.TotalsOfRunningTotals | src/infrastructure/krakenWS.repository.ts:48-49 | after the totals pass, each total is the sum of the side's own quantities up to and including that level |
| BookSide.RebuiltSideLevels | src/infrastructure/krakenWS.repository.ts:47-51 | without totals, a snapshot side is the message's entries, with qty copied to quantity, in sorted order |
| BookSide.RebuiltSideCorrect | src/infrastructure/krakenWS.repository.ts:46-55 | a snapshot side has as many levels as the message side, is sorted in the side's order, is a stable permutation of the message's entries, and carries prefix-sum totals |
| BookSide.FromLevels | src/infrastructure/krakenWS.repository.ts:76 | the Map built from the current side holds each price's last quantity and has unique keys |
| BookSide.ApplyAll | src/infrastructure/krakenWS.repository.ts:77-80 | the `forEach` over the entry list does to the abstract map what applying the updates in order does, and keeps keys unique |
| BookSide.EntryStep | src/infrastructure/krakenWS.repository.ts:78-79 | one `forEach` step, `delete` for quantity 0 and `set` otherwise; its effect on the map follows from PriceMap.Delete and PriceMap.Put and is stated for the whole batch by BookSide.ApplyAll |
| BookSide.ApplyUpdatesAt | src/infrastructure/krakenWS.repository.ts:77-80 | per price, within one batch the last update wins: 0 removes the price, any other quantity sets it, and an unnamed price keeps what it had |
| BookSide.ApplyUpdatesIdempotent | src/infrastructure/krakenWS.repository.ts:77-80 | applying the same batch to the map twice gives what applying it once gives |
| BookSide.EntryLevelsMember | src/infrastructure/krakenWS.repository.ts:81-82 | a level is read back from the Map exactly when the Map holds its price with its quantity |
| BookSide.EntryLevels | src/infrastructure/krakenWS.repository.ts:81-82 | the levels read back from the Map's entries; stated by BookSide.EntryLevelsMember (exactly the Map's price and quantity pairs) |
| BookSide.SortedEntries | src/infrastructure/krakenWS.repository.ts:81-83 | sorting the Map's entries gives a strictly sorted side with the Map's levels, whose price map is the Map |
| BookSide.MergedSide | src/infrastructure/krakenWS.repository.ts:75-87 | the specification of updateLevels; its promises are stated by BookSide.MergedSideAt, BookSide.MergedSideMap, BookSide.MergedSideShape and BookSide.MergedSideIdempotent, and KrakenWs.UpdateLevels is proved to compute it |
| BookSide.MergedSideMap | src/infrastructure/krakenWS.repository.ts:75-87 | read as a price-to-quantity map, the merged side is the old side's map with the updates applied in order |
| BookSide.MergedSideShape | src/infrastructure/krakenWS.repository.ts:81-86 | the merged side is strictly sorted in the requested order, has unique prices, and carries prefix-sum totals |
| BookSide.MergedSideAt | src/infrastructure/krakenWS.repository.ts:76-80 | per price, a price whose last update is 0 is gone, one whose last update is q is at q, and a price no update names keeps its previous quantity or stays absent |
| BookSide.MergedSideIdempotent | src/infrastructure/krakenWS.repository.ts:75-87 | applying the same update list twice gives the same side as applying it once |
| KrakenWs.IsBookMessage | src/infrastructure/krakenWS.repository.ts:30 | the routing test, channel `book` and type snapshot or update; KrakenWs.KrakenWsService.OnMessage states that exactly these messages are processed and all others change nothing |
| KrakenWs.NextBook | src/infrastructure/krakenWS.repository.ts:43-61 | the book after one message; stated by KrakenWs.NextBookWellFormed, KrakenWs.SnapshotDiscardsPriorBook and KrakenWs.NextBookIdempotent, and KrakenWs.Reconcile is proved to compute it |
| KrakenWs.Emits | src/infrastructure/krakenWS.repository.ts:44-64 | whether a snapshot is published: `data[0]` exists and more than 100 ms have passed; KrakenWs.KrakenWsService.ProcessMessage states that a snapshot is returned and `lastUiUpdate` moves exactly when it holds |
| KrakenWs.NextBookWellFormed | src/infrastructure/krakenWS.repository.ts:41-61 | every processed message leaves bids sorted descending and asks ascending, both with prefix-sum totals |
| KrakenWs.SnapshotDiscardsPriorBook | src/infrastructure/krakenWS.repository.ts:46-55 | after a snapshot, each side holds exactly the message's entries for it, whatever the prior book held |
| KrakenWs.NextBookIdempotent | src/infrastructure/krakenWS.repository.ts:41-87 | processing the same message twice leaves the book as processing it once does |
| KrakenWs.AttachTotals | src/infrastructure/krakenWS.repository.ts:48-53 | the accumulator loop yields the running-total side |
| KrakenWs.UpdateLevels | src/infrastructure/krakenWS.repository.ts:75-87 | the Map loop, the `forEach` loop, the sort and the totals pass compute the merged side |
| KrakenWs.Reconcile | src/infrastructure/krakenWS.repository.ts:43-61 | the branch code of processMessage computes the next book: unchanged without `data[0]`, rebuilt for a snapshot, merged for an update |
| KrakenWs.SpacedAppend | src/infrastructure/krakenWS.repository.ts:63-72 | publishing only when more than 100 ms have passed since the last publication keeps all publications more than 100 ms apart, and the new one becomes the last |
| KrakenWs.KrakenWsService.constructor | src/infrastructure/krakenWS.repository.ts:5-14 | a new engine has the given symbol, an empty book, `lastUiUpdate` 0 and no published snapshot |
| KrakenWs.KrakenWsService.ProcessMessage | src/infrastructure/krakenWS.repository.ts:41-73 | without `data[0]` nothing changes; otherwise the book is rebuilt or merged; a snapshot `{bids, asks, now, symbol}` is returned and `lastUiUpdate` becomes `now` exactly when more than 100 ms have passed; published snapshots stay more than 100 ms apart and the book stays well formed |
| KrakenWs.KrakenWsService.OnMessage | src/infrastructure/krakenWS.repository.ts:27-36 | only a parsed `book` message of type snapshot or update is processed; anything else changes nothing |
| ReadService.Active | src/application/orderbook.readService.ts:18-23 | `activeSnapshot` over the cells; stated by ReadService.ActivePinnedWhilePaused and by the `ActiveSnapshot()` clauses of Resume, GoToHistory and Reset |
| ReadService.ActivePinnedWhilePaused | src/application/orderbook.readService.ts:18-23 | paused on a valid cursor, the active snapshot is that frame's, and a new live snapshot or appended frames do not move it |
| ReadService.OrderBookReadService.constructor | src/application/orderbook.readService.ts:11-15 | initial cells: no live snapshot, empty history, not paused, cursor -1, not connected; nothing is active |
| ReadService.OrderBookReadService.Disconnect | src/application/orderbook.readService.ts:34-37 | `isConnected` becomes false and the replay state is unchanged |
| ReadService.OrderBookReadService.Pause | src/application/orderbook.readService.ts:39-41 | `isPaused` becomes true and nothing else changes, the cursor included |
| ReadService.OrderBookReadService.Resume | src/application/orderbook.readService.ts:43-46 | not paused, cursor -1, and the live snapshot is active again |
| ReadService.OrderBookReadService.GoToHistory | src/application/orderbook.readService.ts:48-53 | an index of an existing frame pauses on that frame and makes it active; any other index changes nothing |
| ReadService.OrderBookReadService.Reset | src/application/orderbook.readService.ts:55-60 | no live snapshot, empty history, not paused, cursor -1, connection flag kept |
| App.SliderMax | src/App.tsx:126 | the slider's `max`, the last index or 0; App.SliderValue states that the displayed value stays within it while the cursor is in range |
| App.SliderValue | src/App.tsx:126-127 | the displayed value is non-negative, is the slider's last position while live, and is within the slider's max while the cursor is in range |
| App.HandleKeys | src/App.tsx:26-37 | Space toggles pause and puts the cursor on the last frame or back to -1; while paused, ArrowLeft never goes below 0 and ArrowRight never past the last index; other keys, or arrows while live, change nothing |
| App.ArrowLeftOnEmptyHistory | src/App.tsx:27-34 | Space then ArrowLeft on a fresh state leaves it paused on cursor 0 with an empty history, so the cursor names no frame and is out of range |
| App.HandleKeysInRange | src/App.tsx:26-37 | the key handler with arrows inert on an empty history keeps the cursor -1 or a valid index for every key |
| App.OnPauseButton | src/App.tsx:106-109 | afterwards paused, with the cursor on the last frame, or unchanged when the history is empty |
| App.OnSliderChange | src/App.tsx:128-131 | afterwards always paused; the cursor moves only to an in-range value, and the slider then shows that value |

## Left out

- The WebSocket lifecycle is I/O: `connect`, the subscription sent on open, the
  5 s reconnect in `onclose`, and the engine's `disconnect`. The read service's
  `connect` action only forwards to it. The read service's `disconnect` is
  modelled without the socket close.
- `JSON.parse` is not modelled. Its failure and every exception that the
  handler's `try` catches are the `None` input of `OnMessage`, which leaves the
  state unchanged: a message without a `data` array (`msg.data[0]`), a `data[0]`
  without a `bids` or `asks` array, and a `null` entry in a side (`b.price`,
  `u.qty`).
- `console.log` and `console.error` are left out.
- Preact signals, React hooks and effects (the re-subscription on `symbol`, the
  key listener registration, `preventDefault`) are framework wiring. The cells
  are plain fields.
- History append and eviction: `MAX_HISTORY` is declared (`ReadService.MaxHistory`)
  but nothing in the code appends to the history, so there is no ring buffer.
- The symbol buttons call `reset()`, which `OrderBookReadService.Reset` models.
  They never change `symbol`.
- The presentation components (depth chart, order-book table, imbalance meter,
  info modal) are rendering and floating-point display arithmetic.
  `useOrderBook.ts` imports a factory that does not exist.
- IEEE floating point is not modelled: rounding in the totals, NaN prices, and
  `parseInt` of a slider value that is not a number. Prices and quantities are
  reals, and the slider value is an integer.
- `Date.now()` is the `now` parameter of `ProcessMessage` and `OnMessage`.
- KrakenWs.KrakenWsService.OnMessage: its contract does not return the snapshot,
  because `onmessage` discards what `processMessage` returns.

## Findings

| source | as written | input that shows it | evidently intended | confidence | as-written member | corrected member |
|---|---|---|---|---|---|---|
| src/App.tsx:34 | while paused, ArrowLeft sets the cursor to max(0, cursor - 1) even when the history is empty | fresh state, Space (paused, cursor -1 since the history is empty), then ArrowLeft: the state is paused on cursor 0, and with an empty history index 0 names no frame, so the cursor is neither -1 nor a valid index | the cursor stays -1 or a valid index; scrubbing an empty history does nothing | medium, not executed | App.ArrowLeftOnEmptyHistory | App.HandleKeysInRange |
