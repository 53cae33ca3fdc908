/** `OrderFlowApp`: routes broker ticks into the per-ticker snapshots, the
    tick buffer and the three horizons of histograms and book windows. */
module OrderFlowApps {
  import opened Wrappers
  import opened PyNum
  import opened PyDict
  import opened Binning
  import opened Ticks
  import opened OrderFlowBuffers
  import SH = SlidingHistograms
  import BW = BookWindows

  /** The `{"fast": …, "mid": …, "slow": …}` dictionaries. */
  datatype Horizons<T> = Horizons(fast: T, mid: T, slow: T)

  /** Window lengths of the three horizons, in seconds. */
  const FAST_WINDOW: real := 60.0
  const MID_WINDOW: real := 5.0 * 60.0
  const SLOW_WINDOW: real := 30.0 * 60.0

  /** The first key inserted into a dict stays first when a key is set. */
  lemma FirstKeyStable<V>(d: Dict<int, V>, k: int, v: V)
    ensures d != [] ==> Set(d, k, v)[0].0 == d[0].0
    ensures d == [] ==> Set(d, k, v) == [(k, v)]
  {
    if d != [] && d[0].0 != k {
      assert Get(d, k).None? ==> Set(d, k, v) == d + [(k, v)];
    }
  }

  class OrderFlowApp {
    const buffer: OrderFlowBuffer
    var snapshots: Dict<int, Snapshot>
    const binSize: real
    const flowFast: SH.SlidingHistogram
    const flowMid: SH.SlidingHistogram
    const flowSlow: SH.SlidingHistogram
    const bookFast: BW.BookWindow
    const bookMid: BW.BookWindow
    const bookSlow: BW.BookWindow

    ghost predicate Valid()
      reads this, buffer, buffer.data, flowFast, flowMid, flowSlow, bookFast, bookMid, bookSlow
    {
      Configured() && buffer.Valid() && WindowsValid() && DistinctKeys(snapshots)
    }

    ghost predicate WindowsValid()
      reads flowFast, flowMid, flowSlow, bookFast, bookMid, bookSlow
    {
      && flowFast.Valid() && flowMid.Valid() && flowSlow.Valid()
      && bookFast.Valid() && bookMid.Valid() && bookSlow.Valid()
    }

    /** Six distinct windows; the three horizons use windows of 60, 300 and
        1800 seconds and share one bin size. */
    predicate Configured() {
      && flowFast != flowMid && flowMid != flowSlow && flowFast != flowSlow
      && bookFast != bookMid && bookMid != bookSlow && bookFast != bookSlow
      && (flowFast.windowSeconds, flowMid.windowSeconds, flowSlow.windowSeconds)
         == (FAST_WINDOW, MID_WINDOW, SLOW_WINDOW)
      && (bookFast.windowSeconds, bookMid.windowSeconds, bookSlow.windowSeconds)
         == (FAST_WINDOW, MID_WINDOW, SLOW_WINDOW)
      && (flowFast.binSize, flowMid.binSize, flowSlow.binSize, bookFast.binSize, bookMid.binSize, bookSlow.binSize)
         == (binSize, binSize, binSize, binSize, binSize, binSize)
    }

    /** Aggregation time `now` is not older than anything any window took. */
    ghost predicate ClockAt(now: real)
      reads flowFast, flowMid, flowSlow, bookFast, bookMid, bookSlow
    {
      && flowFast.AcceptsAt(now) && flowMid.AcceptsAt(now) && flowSlow.AcceptsAt(now)
      && bookFast.AcceptsAt(now) && bookMid.AcceptsAt(now) && bookSlow.AcceptsAt(now)
    }

    constructor (bufferCapacity: nat, binSize: real)
      requires bufferCapacity > 0
      ensures Valid()
      ensures fresh(buffer) && fresh(buffer.data)
      ensures fresh(flowFast) && fresh(flowMid) && fresh(flowSlow)
      ensures fresh(bookFast) && fresh(bookMid) && fresh(bookSlow)
      ensures this.binSize == binSize && snapshots == []
      ensures buffer.capacity == bufferCapacity && buffer.appended == []
      ensures flowFast.added == [] && flowMid.added == [] && flowSlow.added == []
      ensures bookFast.added == [] && bookMid.added == [] && bookSlow.added == []
    {
      var b := new OrderFlowBuffer(bufferCapacity);
      var f1 := new SH.SlidingHistogram(FAST_WINDOW, binSize);
      var f2 := new SH.SlidingHistogram(MID_WINDOW, binSize);
      var f3 := new SH.SlidingHistogram(SLOW_WINDOW, binSize);
      var b1 := new BW.BookWindow(FAST_WINDOW, binSize);
      var b2 := new BW.BookWindow(MID_WINDOW, binSize);
      var b3 := new BW.BookWindow(SLOW_WINDOW, binSize);
      buffer, snapshots, this.binSize := b, [], binSize;
      flowFast, flowMid, flowSlow := f1, f2, f3;
      bookFast, bookMid, bookSlow := b1, b2, b3;
    }

    /** `OrderFlowApp(...)`: the buffer rejects a non-positive capacity. */
    static method Create(bufferCapacity: int, binSize: real) returns (r: Result<OrderFlowApp, ConfigError>)
      ensures bufferCapacity <= 0 <==> r.Failure?
      ensures r.Success? ==> r.value.Valid() && fresh(r.value)
      ensures r.Success? ==> r.value.binSize == binSize && r.value.snapshots == [] && r.value.buffer.appended == []
    {
      if bufferCapacity <= 0 {
        return Failure(NonPositiveCapacity);
      }
      var app := new OrderFlowApp(bufferCapacity, binSize);
      return Success(app);
    }

    /** `tickPrice`: a price tick (1, 2, 4) sets its field of the ticker's
        snapshot, created unset on the first tick, and records one row; other
        types change nothing. Price ticks feed no window. */
    method TickPrice(reqId: int, tickType: int, price: Num, now: real, rowTime: real)
      requires Valid()
      modifies this, buffer, buffer.data
      ensures Valid()
      ensures unchanged(flowFast, flowMid, flowSlow, bookFast, bookMid, bookSlow)
      ensures !IsPriceTick(tickType) ==> unchanged(this, buffer, buffer.data)
      ensures IsPriceTick(tickType) ==>
        var s := WithPrice(Get(old(snapshots), reqId).GetOr(Unset), tickType, price);
        && snapshots == Set(old(snapshots), reqId, s)
        && buffer.appended == old(buffer.appended) + [TickRow(rowTime, reqId, tickType, s)]
      ensures old(snapshots) != [] ==> snapshots[0].0 == old(snapshots)[0].0
    {
      if !IsPriceTick(tickType) {
        return;
      }
      var s := WithPrice(Get(snapshots, reqId).GetOr(Unset), tickType, price);
      FirstKeyStable(snapshots, reqId, s);
      SetDistinct(snapshots, reqId, s);
      snapshots := Set(snapshots, reqId, s);
      buffer.Append(reqId, tickType, s, rowTime);
    }

    /** `tickSize`: a size tick (0, 3, 5, 8) sets its field of the ticker's
        snapshot, records one row, then feeds the windows. A zero bin size
        raises from the first window after the row is recorded. */
    method TickSize(reqId: int, tickType: int, size: Num, now: real, rowTime: real)
      returns (err: Option<BinError>)
      requires Valid() && ClockAt(now)
      modifies this, buffer, buffer.data, flowFast, flowMid, flowSlow, bookFast, bookMid, bookSlow
      ensures Valid()
      ensures !IsSizeTick(tickType) ==> unchanged(this, buffer, buffer.data, flowFast, flowMid, flowSlow, bookFast, bookMid, bookSlow) && err.None?
      ensures IsSizeTick(tickType) ==>
        var s := WithSize(Get(old(snapshots), reqId).GetOr(Unset), tickType, size);
        && snapshots == Set(old(snapshots), reqId, s)
        && buffer.appended == old(buffer.appended) + [TickRow(rowTime, reqId, tickType, s)]
        && Fed(FlowFeed(s, tickType, now), BookFeed(s, tickType, now))
        && (err.Some? <==> Raises(s, tickType))
      ensures old(snapshots) != [] ==> snapshots[0].0 == old(snapshots)[0].0
    {
      if !IsSizeTick(tickType) {
        return None;
      }
      var s := WithSize(Get(snapshots, reqId).GetOr(Unset), tickType, size);
      FirstKeyStable(snapshots, reqId, s);
      SetDistinct(snapshots, reqId, s);
      snapshots := Set(snapshots, reqId, s);
      err := RecordTick(reqId, tickType, s, now, rowTime);
    }

    /** The side, price and size a BID_SIZE or ASK_SIZE tick feeds. */
    static function BookSide(s: Snapshot, tickType: int): (BW.Side, Num, Num) {
      if tickType == BID_SIZE then (BW.Bid, s.bidPrice, s.bidSize) else (BW.Ask, s.askPrice, s.askSize)
    }

    /** The events `_handle_aggregations` feeds every histogram: a LAST_SIZE
        tick feeds `(last_price, last_size)`, nothing else feeds anything. */
    function FlowFeed(s: Snapshot, tickType: int, now: real): seq<SH.FlowEvent> {
      if tickType == LAST_SIZE then SH.Accepted(now, s.lastPrice, s.lastSize, binSize) else []
    }

    /** The events fed to every book window: BID_SIZE feeds side bid with the
        bid price and size, ASK_SIZE side ask with the ask price and size. */
    function BookFeed(s: Snapshot, tickType: int, now: real): seq<BW.BookEvent> {
      var (side, price, size) := BookSide(s, tickType);
      if tickType == BID_SIZE || tickType == ASK_SIZE then BW.Accepted(now, side, price, size, binSize) else []
    }

    /** Whether the aggregations raise: a window would queue an event but the
        bin size is zero. */
    predicate Raises(s: Snapshot, tickType: int) {
      var (side, price, size) := BookSide(s, tickType);
      binSize == 0.0 &&
      ((tickType == LAST_SIZE && s.lastPrice.Some? && s.lastSize.Some? && s.lastSize.value != 0.0) ||
       ((tickType == BID_SIZE || tickType == ASK_SIZE) && price.Some? && size.Some? && size.value >= 0.0))
    }

    /** Every histogram took `flow` and every book window took `book`; a window
        that took nothing is untouched. */
    twostate predicate Fed(flow: seq<SH.FlowEvent>, book: seq<BW.BookEvent>)
      reads flowFast, flowMid, flowSlow, bookFast, bookMid, bookSlow
    {
      && flowFast.added == old(flowFast.added) + flow
      && flowMid.added == old(flowMid.added) + flow
      && flowSlow.added == old(flowSlow.added) + flow
      && bookFast.added == old(bookFast.added) + book
      && bookMid.added == old(bookMid.added) + book
      && bookSlow.added == old(bookSlow.added) + book
      && (flow == [] ==> unchanged(flowFast, flowMid, flowSlow))
      && (book == [] ==> unchanged(bookFast, bookMid, bookSlow))
    }

    /** `_record_tick`: one buffer row stamped `rowTime`, then the aggregations
        stamped `now`. */
    method RecordTick(reqId: int, tickType: int, s: Snapshot, now: real, rowTime: real)
      returns (err: Option<BinError>)
      requires Valid() && ClockAt(now)
      modifies buffer, buffer.data, flowFast, flowMid, flowSlow, bookFast, bookMid, bookSlow
      ensures Valid()
      ensures buffer.appended == old(buffer.appended) + [TickRow(rowTime, reqId, tickType, s)]
      ensures Fed(FlowFeed(s, tickType, now), BookFeed(s, tickType, now))
      ensures err.Some? <==> Raises(s, tickType)
    {
      buffer.Append(reqId, tickType, s, rowTime);
      err := HandleAggregations(now, tickType, s);
    }

    /** `_handle_aggregations` */
    method HandleAggregations(now: real, tickType: int, s: Snapshot) returns (err: Option<BinError>)
      requires Configured() && WindowsValid() && ClockAt(now)
      modifies flowFast, flowMid, flowSlow, bookFast, bookMid, bookSlow
      ensures WindowsValid()
      ensures Fed(FlowFeed(s, tickType, now), BookFeed(s, tickType, now))
      ensures err.Some? <==> Raises(s, tickType)
    {
      err := None;
      if tickType == LAST_SIZE {
        assert BookFeed(s, tickType, now) == [];
        err := FeedHistograms(now, s.lastPrice, s.lastSize);
      } else if tickType == BID_SIZE || tickType == ASK_SIZE {
        assert FlowFeed(s, tickType, now) == [];
        var (side, price, size) := BookSide(s, tickType);
        err := FeedBooks(now, side, price, size);
      }
    }

    /** `for hist in self.orderflow_windows.values(): hist.add(...)`; the
        first error ends the loop. */
    method FeedHistograms(now: real, price: Num, size: Num) returns (err: Option<BinError>)
      requires flowFast.Valid() && flowMid.Valid() && flowSlow.Valid()
      requires flowFast.AcceptsAt(now) && flowMid.AcceptsAt(now) && flowSlow.AcceptsAt(now)
      requires Configured()
      modifies flowFast, flowMid, flowSlow
      ensures flowFast.Valid() && flowMid.Valid() && flowSlow.Valid()
      ensures flowFast.added == old(flowFast.added) + SH.Accepted(now, price, size, binSize)
      ensures flowMid.added == old(flowMid.added) + SH.Accepted(now, price, size, binSize)
      ensures flowSlow.added == old(flowSlow.added) + SH.Accepted(now, price, size, binSize)
      ensures SH.Accepted(now, price, size, binSize) == [] ==> unchanged(flowFast, flowMid, flowSlow)
      ensures err.Some? <==> price.Some? && size.Some? && size.value != 0.0 && binSize == 0.0
    {
      err := flowFast.Add(now, price, size);
      if err.Some? {
        return;
      }
      err := flowMid.Add(now, price, size);
      err := flowSlow.Add(now, price, size);
    }

    /** `for book in self.book_windows.values(): book.add(...)`. */
    method FeedBooks(now: real, side: BW.Side, price: Num, size: Num) returns (err: Option<BinError>)
      requires bookFast.Valid() && bookMid.Valid() && bookSlow.Valid()
      requires bookFast.AcceptsAt(now) && bookMid.AcceptsAt(now) && bookSlow.AcceptsAt(now)
      requires Configured()
      modifies bookFast, bookMid, bookSlow
      ensures bookFast.Valid() && bookMid.Valid() && bookSlow.Valid()
      ensures bookFast.added == old(bookFast.added) + BW.Accepted(now, side, price, size, binSize)
      ensures bookMid.added == old(bookMid.added) + BW.Accepted(now, side, price, size, binSize)
      ensures bookSlow.added == old(bookSlow.added) + BW.Accepted(now, side, price, size, binSize)
      ensures BW.Accepted(now, side, price, size, binSize) == [] ==> unchanged(bookFast, bookMid, bookSlow)
      ensures err.Some? <==> price.Some? && size.Some? && size.value >= 0.0 && binSize == 0.0
    {
      err := bookFast.Add(now, side, price, size);
      if err.Some? {
        return;
      }
      err := bookMid.Add(now, side, price, size);
      err := bookSlow.Add(now, side, price, size);
    }

    /** `get_orderflow_snapshot`: every horizon's bin sums. */
    function GetOrderflowSnapshot(): (r: Horizons<Dict<real, real>>)
      reads this, buffer, buffer.data, flowFast, flowMid, flowSlow, bookFast, bookMid, bookSlow
      requires Valid()
      ensures forall k :: Get(r.fast, k).GetOr(0.0) == SH.KeySum(flowFast.events, k)
      ensures forall k :: Get(r.mid, k).GetOr(0.0) == SH.KeySum(flowMid.events, k)
      ensures forall k :: Get(r.slow, k).GetOr(0.0) == SH.KeySum(flowSlow.events, k)
      ensures DistinctKeys(r.fast) && DistinctKeys(r.mid) && DistinctKeys(r.slow)
      ensures forall k :: Get(r.fast, k).Some? ==> k in SH.KeysOf(flowFast.events)
      ensures forall k :: Get(r.mid, k).Some? ==> k in SH.KeysOf(flowMid.events)
      ensures forall k :: Get(r.slow, k).Some? ==> k in SH.KeysOf(flowSlow.events)
    {
      Horizons(flowFast.Snapshot(), flowMid.Snapshot(), flowSlow.Snapshot())
    }

    /** `get_book_snapshot`: every horizon's latest size per `(side, bin)`. */
    function GetBookSnapshot(): (r: Horizons<Dict<BW.BookKey, real>>)
      reads this, buffer, buffer.data, flowFast, flowMid, flowSlow, bookFast, bookMid, bookSlow
      requires Valid()
      ensures forall k :: Get(r.fast, k).Some? <==> BW.LastIndex(bookFast.added, k) >= bookFast.popped
      ensures forall k :: Get(r.mid, k).Some? <==> BW.LastIndex(bookMid.added, k) >= bookMid.popped
      ensures forall k :: Get(r.slow, k).Some? <==> BW.LastIndex(bookSlow.added, k) >= bookSlow.popped
      ensures DistinctKeys(r.fast) && DistinctKeys(r.mid) && DistinctKeys(r.slow)
      ensures forall k :: Get(r.fast, k).Some? ==>
        Get(r.fast, k).value == bookFast.added[BW.LastIndex(bookFast.added, k)].value
      ensures forall k :: Get(r.mid, k).Some? ==>
        Get(r.mid, k).value == bookMid.added[BW.LastIndex(bookMid.added, k)].value
      ensures forall k :: Get(r.slow, k).Some? ==>
        Get(r.slow, k).value == bookSlow.added[BW.LastIndex(bookSlow.added, k)].value
    {
      Horizons(bookFast.Snapshot(), bookMid.Snapshot(), bookSlow.Snapshot())
    }

    /** `get_latest_price`: `None` before any tick; otherwise the last price
        of the first ticker that ever ticked. */
    function GetLatestPrice(): (r: Option<Num>)
      reads this
      ensures r.None? <==> snapshots == []
      ensures r.Some? ==> Get(snapshots, snapshots[0].0).Some? && r.value == snapshots[0].1.lastPrice
    {
      if snapshots == [] then None else Some(snapshots[0].1.lastPrice)
    }
  }
}
