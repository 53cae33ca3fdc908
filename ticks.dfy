/** The per-ticker snapshot of the latest tick values and the row the tick
    buffer stores for every recorded tick. */
module Ticks {
  import opened Wrappers
  import opened PyNum

  /** `Snapshot`: latest values for one ticker id; every field starts unset (NaN). */
  datatype Snapshot = Snapshot(
    bidSize: Num,
    bidPrice: Num,
    askPrice: Num,
    askSize: Num,
    lastPrice: Num,
    lastSize: Num,
    volume: Num)

  /** `Snapshot()`: the all-NaN snapshot created on the first tick of a ticker id. */
  const Unset := Snapshot(None, None, None, None, None, None, None)

  /** One buffer row: time of the append, the tick's identity, and a copy of the
      whole snapshot (its fields in the buffer's column order). */
  datatype TickRow = TickRow(timestamp: real, tickerId: int, tickType: int, values: Snapshot)

  /** Tick type codes of the broker feed. */
  const BID_SIZE := 0
  const BID := 1
  const ASK := 2
  const ASK_SIZE := 3
  const LAST := 4
  const LAST_SIZE := 5
  const VOLUME := 8

  /** `PRICE_TICK_TYPES` */
  predicate IsPriceTick(tickType: int) {
    tickType == BID || tickType == ASK || tickType == LAST
  }

  /** `SIZE_TICK_TYPES` */
  predicate IsSizeTick(tickType: int) {
    tickType == BID_SIZE || tickType == ASK_SIZE || tickType == LAST_SIZE || tickType == VOLUME
  }

  /** The snapshot update of `tickPrice`: a price tick sets exactly its own
      price field (bid 1, ask 2, last 4); any other type sets nothing. */
  function WithPrice(s: Snapshot, tickType: int, price: Num): (r: Snapshot)
    ensures r.bidPrice == if tickType == BID then price else s.bidPrice
    ensures r.askPrice == if tickType == ASK then price else s.askPrice
    ensures r.lastPrice == if tickType == LAST then price else s.lastPrice
    ensures r.bidSize == s.bidSize && r.askSize == s.askSize
    ensures r.lastSize == s.lastSize && r.volume == s.volume
  {
    if tickType == BID then s.(bidPrice := price)
    else if tickType == ASK then s.(askPrice := price)
    else if tickType == LAST then s.(lastPrice := price)
    else s
  }

  /** The snapshot update of `tickSize`: a size tick sets exactly its own
      field (bid size 0, ask size 3, last size 5, volume 8). */
  function WithSize(s: Snapshot, tickType: int, size: Num): (r: Snapshot)
    ensures r.bidSize == if tickType == BID_SIZE then size else s.bidSize
    ensures r.askSize == if tickType == ASK_SIZE then size else s.askSize
    ensures r.lastSize == if tickType == LAST_SIZE then size else s.lastSize
    ensures r.volume == if tickType == VOLUME then size else s.volume
    ensures r.bidPrice == s.bidPrice && r.askPrice == s.askPrice && r.lastPrice == s.lastPrice
  {
    if tickType == BID_SIZE then s.(bidSize := size)
    else if tickType == ASK_SIZE then s.(askSize := size)
    else if tickType == LAST_SIZE then s.(lastSize := size)
    else if tickType == VOLUME then s.(volume := size)
    else s
  }
}
