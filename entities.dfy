/**
 * The plain records of src/entities. Prices and quantities are mathematical
 * reals (the source only adds and compares them); timestamps are integer
 * milliseconds.
 */
module Entities {
  import opened Wrappers

  /** One price level of a book side; `total` is optional, as in the record. */
  datatype OrderLevel = OrderLevel(price: real, quantity: real, total: Option<real>)

  /** One `{price, qty}` entry as it arrives on the wire. */
  datatype KrakenBookEntry = KrakenBookEntry(price: real, qty: real)

  /** One element of a message's `data` array. */
  datatype BookData = BookData(symbol: string, bids: seq<KrakenBookEntry>, asks: seq<KrakenBookEntry>, timestamp: string)

  /** A decoded feed message; `msgType` is the message's `type` field. */
  datatype KrakenWsMessage = KrakenWsMessage(channel: string, msgType: string, data: seq<BookData>)

  /** A published book: both sides, the emission instant and the symbol. */
  datatype OrderBookSnapshot = OrderBookSnapshot(bids: seq<OrderLevel>, asks: seq<OrderLevel>, timestamp: int, symbol: string)

  /** One recorded frame of the replay history. */
  datatype HistoryFrame = HistoryFrame(timestamp: int, snapshot: OrderBookSnapshot)
}
