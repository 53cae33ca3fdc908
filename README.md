# TG_project-OrderFlow in Dafny

A Dafny model of the tick-aggregation engine of TG_project-OrderFlow. It also
covers the option-configuration parsers and the small helpers of the trading
script.

**Tick aggregation engine** (`OrderFlow_base.py`, `OrdreFLow_base_vis.py`).
Broker ticks arrive through `tickPrice` and `tickSize`. A recognised tick does
three things:

- it updates one field of its ticker's `Snapshot`;
- it appends one row to `OrderFlowBuffer`, a fixed-capacity ring buffer;
- it feeds three horizons (60 s, 300 s, 1800 s) of two kinds of window:
  - a `SlidingHistogram` sums traded size per price bin;
  - a `BookWindow` keeps the latest bid or ask size per `(side, bin)`.

The engine's modules:

- `orderflow_buffer.dfy` is a class over an `array`. The buffer keeps a ghost
  history of every appended row, and `to_array`/`tail` are proved to return
  the most recent rows of that history, oldest first.
- `sliding_histogram.dfy` and `book_window.dfy` are classes with a queue
  (`seq`) and an insertion-ordered dictionary. A ghost history of accepted
  events and a count of expired ones tie the queue and the dictionary to
  what was accepted:
  - every bin sum is the sum of the queued events of that bin;
  - a book entry exists exactly when the last write of its key is still
    queued, and holds that write's size.
- `orderflow_app.dfy` is the dispatcher. It states which snapshot field a
  tick sets, the row it records and which windows it feeds.

**Option configuration** (`add_contract_option_latest.py`,
`add_contract_option_0dte.py`). This covers:

- the two forms of `parse_option_config_line`, proved field by field and
  shown to read back a rendered entry;
- `load_option_requests`, a loop proved equal to "parse the kept lines in
  order, stop at the first error";
- `_find_free_rows`;
- the trading-day loops, proved against a weekday count;
- the strike rules.

**Trading script** (`TG_Reference_code.py`). This covers:

- order creation and the order-id counter;
- the third-Friday expiry formula, over a Python-compatible proleptic calendar;
- the Yahoo date reformat and its inverse;
- the market-hours predicate;
- the in-place updates of the streaming matrix (an `array2`) by `tickPrice`
  and `tickSize`;
- the streamed-row selection loop.

Python's semantics are written out where the code depends on them:

- `float` is `real`, and NaN ("unset") is `Option<real>`;
- a `dict` is an insertion-ordered association list (`PyDict`), so "first
  inserted" and sort stability mean what they mean in Python;
- `int()` truncates toward zero;
- `math.floor` and `round` (half to even) are defined explicitly;
- negative indices count from the end, and slices clamp;
- `str.strip` uses Python's whitespace set, and `split` and `upper` are
  defined explicitly;
- `weekday()` is computed from `toordinal()`.

Clock readings (`time.time()`, `datetime.now()`) are parameters.

## Model

| member | source | states |
|---|---|---|
| PyNum.Trunc | TG_Reference_code.py:212-215 | `int()` of a float: truncation toward zero, within one of the argument and on its side of zero |
| PySeq.Index | TG_Reference_code.py:385-401 | a NumPy/Python index is legal exactly when `-n <= i < n`; a negative one counts from the end |
| PySeq.SliceTo | OrderFlow_base.py:164 | `s[:n]` has the length of `n` clamped to the sequence, a negative `n` counting from the end, and holds the first elements of `s` in order |
| PySeq.Slice | TG_Reference_code.py:1162-1164 | `s[a:b]` has the clamped length and the elements of `s` from `a` |
| PyDict.Set | OrderFlow_base.py:192 | `d[k] = v`: `k` maps to `v`, every other key keeps its value, a new key is appended at the end |
| PyDict.Delete | OrderFlow_base.py:202 | `del d[k]`: `k` is gone, every other key keeps its value, keys stay distinct |
| PyDict.MapValues | OrderFlow_base.py:205 | a dict comprehension over values keeps the keys, their order and maps each value |
| Binning.BinKey | OrderFlow_base.py:137-140 | a NaN price is rejected with an error, a zero bin size is the division error, otherwise the key is the floor-index times the bin size |
| Binning.BinKeyBounds | OrderFlow_base.py:137-140 | for a positive bin size the price lies in `[key, key + bin_size)` |
| Binning.BinKeyUnique | OrderFlow_base.py:137-140 | the key is the unique multiple `n * bin_size` whose bin holds the price |
| Ticks.WithPrice | OrdreFLow_base_vis.py:217-223 | a BID/ASK/LAST tick sets exactly the matching price field of the snapshot |
| Ticks.WithSize | OrdreFLow_base_vis.py:229-237 | a BID_SIZE/ASK_SIZE/LAST_SIZE/VOLUME tick sets exactly the matching size field |
| OrderFlowBuffers.OrderFlowBuffer.constructor | OrderFlow_base.py:78-84 | a new buffer has the given capacity, size 0, write index 0 and no history |
| OrderFlowBuffers.OrderFlowBuffer.Append | OrderFlow_base.py:87-105 | exactly the slot at the write index is overwritten with the row; the index advances modulo capacity; size becomes `min(size + 1, capacity)`; the row joins the history |
| OrderFlowBuffers.OrderFlowBuffer.ToArray | OrderFlow_base.py:107-115 | `size` rows, equal to the last `min(N, capacity)` of the N appended rows, oldest first; empty when size is 0 |
| OrderFlowBuffers.OrderFlowBuffer.ToArrayContiguous | OrderFlow_base.py:110-112 | when the live rows do not wrap, the single slice holds the newest `size` rows in order |
| OrderFlowBuffers.OrderFlowBuffer.ToArrayWrapped | OrderFlow_base.py:113-115 | when they wrap, the two concatenated slices hold the newest `size` rows in order |
| OrderFlowBuffers.OrderFlowBuffer.Tail | OrderFlow_base.py:117-122 | empty when `n <= 0` or the buffer is empty; otherwise the last `min(n, size)` appended rows, oldest first, a suffix of `to_array()` |
| OrderFlowBuffers.OrderFlowBuffer.Newest | OrdreFLow_base_vis.py:97-99 | reading the `m` slots before the write index, reversed, gives the newest `m` appended rows in append order |
| SlidingHistograms.Accepted | OrderFlow_base.py:142-146 | an unset price or value, a zero value or a zero bin size queues nothing; otherwise one event stamped `timestamp` with the value and the price's bin |
| SlidingHistograms.KeySumAppend | OrderFlow_base.py:147-148 | queuing an event adds its value to its own bin's sum and to no other |
| SlidingHistograms.CreditTracks | OrderFlow_base.py:147-148 | `hist[bin] += value` keeps each entry equal to the sum of the queued events of its bin |
| SlidingHistograms.DebitTracks | OrderFlow_base.py:155-158 | popping the oldest event and subtracting it keeps that correspondence; the popped bin is absent if its sum reached zero and no other bin changes |
| SlidingHistograms.Drain | OrderFlow_base.py:153-158 | the expiry loop pops exactly the leading events older than the threshold and keeps the sums correct; no popped bin is left with a zero sum |
| SlidingHistograms.SlidingHistogram.constructor | OrderFlow_base.py:130-135 | an empty window with the given length and bin size |
| SlidingHistograms.SlidingHistogram.Add | OrderFlow_base.py:142-150 | an ignored tick leaves the window unchanged; otherwise it queues the accepted event and expires; a zero bin size raises before any change; afterwards no queued event is older than the window, every sum is correct, and no bin of an event expired by this call is left with a zero sum |
| SlidingHistograms.SlidingHistogram.Expire | OrderFlow_base.py:152-158 | drops a prefix of the queue so that what remains lies in the window; a bin of a popped event whose sum reached zero is absent |
| SlidingHistograms.SlidingHistogram.Snapshot | OrderFlow_base.py:160-161 | each bin's value is the sum of the queued events of that bin; only bins with queued events appear |
| SlidingHistograms.SlidingHistogram.TopBins | OrderFlow_base.py:163-164 | at most `n` (5 by default) of the current `(bin, sum)` pairs, in non-increasing order of sum, none left out that is larger than one taken |
| SlidingHistograms.InsertSpec | OrderFlow_base.py:164 | inserting into a descending list keeps it descending and is a permutation of the list plus the element |
| SlidingHistograms.SortDescSpec | OrderFlow_base.py:164 | `sorted(..., key=sum, reverse=True)` is descending and a permutation of the input |
| SlidingHistograms.TopPrefix | OrderFlow_base.py:164 | a prefix of a descending list holds the largest values |
| BookWindows.LastIndex | OrderFlow_base.py:192 | the position of the last write of a key, or -1 |
| BookWindows.Accepted | OrderFlow_base.py:185-191 | an unset price or size, a negative size or a zero bin size records nothing; otherwise one event keyed by `(side, bin)` |
| BookWindows.RecordTracks | OrderFlow_base.py:191-192 | `latest[key] = (ts, size)` overwrites rather than sums; the entry is the key's last write |
| BookWindows.ExpiryTracks | OrderFlow_base.py:196-202 | expiring the oldest event keeps every entry equal to its key's last write while that write is queued |
| BookWindows.ExpiryOwnKey | OrderFlow_base.py:200-202 | the popped key survives exactly when it is still live after the pop, that is when its last write comes after the popped event and carries a later timestamp, and then keeps its entry; a later write with the same timestamp is deleted too |
| BookWindows.ExpiryOtherKey | OrderFlow_base.py:196-202 | expiry never touches the entry of another key |
| BookWindows.LiveIsQueued | OrderFlow_base.py:196-202 | a key is live exactly when its last write has not been popped |
| BookWindows.Drain | OrderFlow_base.py:197-202 | the expiry loop pops exactly the leading events older than the threshold and keeps the book correct |
| BookWindows.BookWindow.constructor | OrderFlow_base.py:173-178 | an empty window with the given length and bin size |
| BookWindows.BookWindow.Add | OrderFlow_base.py:185-194 | an ignored tick changes nothing; otherwise the event is recorded and expiry runs; a zero bin size raises before any change |
| BookWindows.BookWindow.Expire | OrderFlow_base.py:196-202 | drops a prefix of the queue so that what remains lies in the window; through `Valid` the book holds exactly the live keys, each with its last write's timestamp and size, and at this window boundary a key is live exactly when its last write is still queued (`LiveIsQueued`) |
| BookWindows.BookWindow.Snapshot | OrderFlow_base.py:204-205 | a key appears exactly when its last write is still queued, with that write's size (timestamps dropped) |
| OrderFlowApps.FirstKeyStable | OrdreFLow_base_vis.py:274-280 | assigning a key never changes which ticker id was inserted first |
| OrderFlowApps.OrderFlowApp.constructor | OrdreFLow_base_vis.py:175-194 | a buffer of the given capacity and six fresh empty windows of 60, 300 and 1800 seconds sharing one bin size |
| OrderFlowApps.OrderFlowApp.Create | OrderFlow_base.py:78-80 | a non-positive buffer capacity is the constructor's `ValueError` |
| OrderFlowApps.OrderFlowApp.TickPrice | OrdreFLow_base_vis.py:213-224 | tick types other than 1, 2, 4 change nothing; a price tick sets its field of the ticker's snapshot (created unset on first use), leaves other tickers alone, records one row with the full snapshot and feeds no window |
| OrderFlowApps.OrderFlowApp.TickSize | OrdreFLow_base_vis.py:226-238 | tick types other than 0, 3, 5, 8 change nothing; a size tick sets its field, records one row, and feeds the windows as `_handle_aggregations` does |
| OrderFlowApps.OrderFlowApp.RecordTick | OrdreFLow_base_vis.py:240-244 | one buffer row, then the aggregations |
| OrderFlowApps.OrderFlowApp.HandleAggregations | OrdreFLow_base_vis.py:246-258 | type 5 feeds `(last_price, last_size)` to the three histograms; 0 feeds side bid, 3 side ask, to the three books; other types feed nothing; it raises exactly on a zero bin size with an accepted event |
| OrderFlowApps.OrderFlowApp.FeedHistograms | OrdreFLow_base_vis.py:250-252 | every histogram takes the same accepted event, or nothing; none changes when nothing is accepted |
| OrderFlowApps.OrderFlowApp.FeedBooks | OrdreFLow_base_vis.py:253-258 | every book window takes the same event, or nothing |
| OrderFlowApps.OrderFlowApp.GetOrderflowSnapshot | OrdreFLow_base_vis.py:266-268 | each horizon's bin sums over its queued events, with distinct keys, every present key a bin of a queued event |
| OrderFlowApps.OrderFlowApp.GetBookSnapshot | OrdreFLow_base_vis.py:270-272 | each horizon's live `(side, bin)` keys, distinct, each with the size of its last write |
| OrderFlowApps.OrderFlowApp.GetLatestPrice | OrdreFLow_base_vis.py:274-280 | `None` exactly when no ticker has ticked; otherwise the last price of the first-inserted snapshot |
| PyStr.Strip | add_contract_option_latest.py:84 | `str.strip()` leaves no whitespace at either end |
| PyStr.StripInfix | add_contract_option_latest.py:84 | the stripped text is an infix of the input with only whitespace around it |
| PyStr.StripIdempotent | add_contract_option_latest.py:132 | stripping an already stripped line changes nothing |
| PyStr.SplitJoin | add_contract_option_latest.py:84 | joining the parts of `split("_")` with `_` gives back the text |
| PyStr.SplitPieces | add_contract_option_latest.py:84 | no part of `split("_")` contains `_` |
| PyStr.JoinSplit | add_contract_option_latest.py:84 | splitting a join of `_`-free parts gives back the parts |
| PyStr.Upper | add_contract_option_latest.py:88 | `upper()` maps each character by itself |
| PyStr.UpperSpec | add_contract_option_latest.py:88 | upper-case output, and upper-casing upper-case text changes nothing |
| PyStr.ParseIntToString | add_contract_option_latest.py:92 | `int(str(n)) == n` |
| PyStr.ParseIntShape | add_contract_option_latest.py:92 | `int()` accepts only an optionally signed run of digits, possibly padded with whitespace |
| PyStr.ParseFloatToString | add_contract_option_latest.py:116 | `float(str(n)) == n` for an integer |
| PyStr.ParseFloatDigits | add_contract_option_latest.py:116 | `float()` of an optionally negated digit string is its value |
| OptionTokens.ParseDays | add_contract_option_latest.py:89-92 | a token not ending in DTE, or whose prefix is not an integer, is rejected with its own error; otherwise days is `int()` of the prefix |
| OptionTokens.ParseDaysToken | add_contract_option_latest.py:89-92 | `<n>DTE` reads back as `n` |
| OptionTokens.ParseRight | add_contract_option_latest.py:94-97 | CALL or PUT in any case map to the right; anything else is rejected |
| OptionTokens.ParseRightToken | add_contract_option_latest.py:94-97 | CALL and PUT read back as their rights |
| OptionTokens.ParseRightCaseless | add_contract_option_latest.py:94 | letter case of the right token does not matter |
| OptionTokens.UpperIsSpec | add_contract_option_latest.py:94-95 | the per-character comparison is `s.upper() == word` |
| ConfigLines.Kept | add_contract_option_latest.py:131-134 | at most one kept line per input line |
| ConfigLines.KeptSpec | add_contract_option_latest.py:131-134 | every kept line is stripped, non-blank and not a comment |
| ConfigLines.KeptAppend | add_contract_option_latest.py:131-134 | keeping lines commutes with concatenation, so input order is kept |
| ConfigLines.Load | add_contract_option_latest.py:129-137 | the loop returns the parses of the kept lines in order, or the first error |
| ConfigLines.ParseAllSuccess | add_contract_option_latest.py:129-137 | on success one request per kept line, each its line's parse |
| ConfigLines.ParseAllFailure | add_contract_option_latest.py:129-137 | on failure the error is that of the first rejected line, every earlier one being accepted |
| OptionConfigLatest.ParseOffset | add_contract_option_latest.py:99-126 | a six-part entry whose fifth token is not ATM is rejected; a five-part ATM entry has offset 0; otherwise the offset is `float()` of the last part or the offset error |
| OptionConfigLatest.LoadOptionRequests | add_contract_option_latest.py:129-137 | one request per kept line in order, labelled with the line, with an upper-case symbol, or the first error |
| OptionConfigLatest.ParseAccepted | add_contract_option_latest.py:83-126 | `ParseOptionConfigLine` accepts only entries that have five or six parts starting with OPT, the stripped line as label, the upper-cased symbol, days and right read from their tokens, and ATM as fifth of six parts |
| OptionConfigLatest.ParseRejectsShape | add_contract_option_latest.py:84-86 | a wrong part count or a first part other than OPT is rejected first |
| OptionConfigLatest.ParseTokenErrors | add_contract_option_latest.py:88-96 | a bad DTE token gives its error before the right is read, and a bad right is rejected before the base and offset |
| OptionConfigLatest.ParseRejectsBase | add_contract_option_latest.py:99-103 | a six-part entry with good days and right whose fifth part is not ATM (any case) is rejected for its base token |
| OptionConfigLatest.ParseRejectsOffset | add_contract_option_latest.py:114-118 | an entry that takes its offset from its last part is rejected exactly when `float()` rejects that part, and then with the offset error |
| OptionConfigLatest.ParseOffsetSource | add_contract_option_latest.py:105-118 | offset 0 for a five-part ATM entry, `float()` of the last part otherwise |
| OptionConfigLatest.ParseRender | add_contract_option_latest.py:83-126 | parsing `OPT_<SYM>_<n>DTE_<RIGHT>_ATM_<offset>` gives back symbol, days, right and offset |
| OptionConfigLatest.LatestStrikeNear | add_contract_option_latest.py:205-209 | `LatestStrike`: with a positive step the ATM strike is a multiple of the step within half a step of the price, and the strike is the offset ATM strike rounded to a multiple of the step |
| Rounding.RoundHalfEven | add_contract_option_latest.py:206 | `round(x)` is within one half of `x`, and an exact half goes to the even integer |
| Rounding.RoundNearest | add_contract_option_latest.py:206 | no integer is nearer to `x` than `round(x)` |
| Rounding.RoundedNear | add_contract_option_latest.py:206 | rounding to a positive step gives a multiple of the step within half a step |
| OptionConfigZeroDte.ParseMoneyness | add_contract_option_0dte.py:102-104 | ATM or OTM in any case are accepted; anything else is rejected |
| OptionConfigZeroDte.ParseMoneynessToken | add_contract_option_0dte.py:102-104 | ATM and OTM read back as themselves |
| OptionConfigZeroDte.LoadOptionRequests | add_contract_option_0dte.py:115-122 | one request per kept line in order, labelled with the line, with an upper-case symbol, or the first error |
| OptionConfigZeroDte.ParseAccepted | add_contract_option_0dte.py:83-112 | `ParseOptionConfigLine` accepts only entries that have exactly five parts starting with OPT, the stripped line as label, and symbol, days, right and moneyness read from their tokens |
| OptionConfigZeroDte.ParseRejectsShape | add_contract_option_0dte.py:87-89 | a part count other than five or a first part other than OPT is rejected first |
| OptionConfigZeroDte.ParseRender | add_contract_option_0dte.py:83-112 | parsing `OPT_<SYM>_<n>DTE_<RIGHT>_<MONEYNESS>` gives back what was rendered |
| OptionConfigZeroDte.ChooseStrikeSpec | add_contract_option_0dte.py:181-191 | `ChooseStrike`: ATM gives the ATM strike, an OTM call `atm + offset`, an OTM put `max(step, atm - offset)`, so never below one step |
| OptionConfigZeroDte.DefaultOffsetIsOneStep | add_contract_option_0dte.py:184 | a symbol without a configured offset moves one step |
| OptionConfigZeroDte.AtmStrikeNear | add_contract_option_0dte.py:181-186 | with a positive step the ATM strike is a multiple of the step within half a step of the price |
| Calendar.DaysInMonth | TG_Reference_code.py:1154 | every month has 28 to 31 days |
| Calendar.DaysBeforeMonth | TG_Reference_code.py:1154 | the days before a month are those before the previous month plus its length |
| Calendar.FirstDayIsMonday | TG_Reference_code.py:1154 | 0001-01-01 is ordinal 1 and a Monday, as in Python |
| Calendar.MonthsAdjoin | TG_Reference_code.py:1154 | the day after a month's last day is the next month's first |
| Calendar.YearsAdjoin | TG_Reference_code.py:1154 | the day after 31 December is 1 January of the next year |
| Calendar.WeekdayShift | add_contract_option_latest.py:66-67 | `d` days later the weekday has moved on by `d` modulo 7 |
| Calendar.WeekHasFiveTradingDays | add_contract_option_latest.py:62-69 | any seven consecutive days hold exactly five weekdays |
| Calendar.FirstTradingDaySpec | add_contract_option_latest.py:55-59 | the first weekday on or after a day is at most two days on, and every day before it is a weekend day |
| Calendar.NextTradingDay | add_contract_option_latest.py:55-59 | the loop returns the first weekday on or after `base` |
| Calendar.AddTradingDays | add_contract_option_latest.py:62-69 | the loop returns a weekday exactly `max(days, 0)` weekdays after the next trading day, the first day with that count |
| FreeRows.FreeInSpec | add_contract_option_latest.py:72-80 | the free rows of a range, strictly increasing, all of them |
| FreeRows.FreeInPrefix | add_contract_option_latest.py:75-77 | scanning further only appends free rows |
| FreeRows.FindFreeRows | add_contract_option_latest.py:72-80 | the loop raises exactly when `start_index` is below `-rows`, and otherwise returns the first `count` free rows from `start_index`, all of them, or none when `count` is 0 and the first row is occupied |
| FreeRows.ExpectedSpec | add_contract_option_latest.py:72-80 | strictly increasing all-zero rows from `start_index`, at most `count` when `count >= 1`, none skipped, all of them when fewer than `count` exist |
| TgOrders.SideOf | TG_Reference_code.py:210-214 | BUY exactly when the quantity is positive |
| TgOrders.QuantityOfSpec | TG_Reference_code.py:210-215 | the quantity is `abs(int(q))`: within one below `abs(q)`, signed by the side it is `int(q)` |
| TgOrders.Order.constructor | TG_Reference_code.py:207 | a fresh order with no prices, transmitted as the library's `Order()` default (`transmit = True`) |
| TgOrders.OrderCreate | TG_Reference_code.py:205-219 | a fresh market order with side and quantity from `quantityEntered` (default 10), transmitted |
| TgOrders.OrderCreatePegMid | TG_Reference_code.py:221-237 | the same side and quantity, type PEG MID, `auxPrice` the offset and `lmtPrice` the limit |
| TgOrders.OrderIds.constructor | TG_Reference_code.py:322-326 | `nextValidId` stores the id it is given |
| TgOrders.OrderIds.NextOrderId | TG_Reference_code.py:328-331 | returns the current id and increments it, so successive calls give consecutive ids |
| TgDates.OptionExpirationIsThirdFriday | TG_Reference_code.py:1153-1155 | `OptionExpirationDay`: the day is in 15..21, a Friday, and the Fridays before it in the month are the days 7 and 14 earlier: the third Friday |
| TgDates.YahooFormatIso | TG_Reference_code.py:1160-1168 | `YahooFormat`: a `YYYY-MM-DD` string becomes `MM/DD/YYYY`, ten characters |
| TgDates.YahooRoundTrip | TG_Reference_code.py:1160-1168 | the reformat of an ISO date is undone by reading it back |
| TgDates.BeforeMicros | TG_Reference_code.py:1142 | comparing `time` values field by field is comparing their microseconds since midnight |
| TgDates.IsNyseOpenSpec | TG_Reference_code.py:1133-1148 | `IsNyseOpen`: open exactly from 09:00:00 to 16:06:00 inclusive, Monday to Friday |
| TgStreaming.PriceColumnSpec | TG_Reference_code.py:382-412 | ticks 1 and 2 write columns 1 and 2 on any row; ticks 4 and 9 write column 0 on stock rows only; nothing else writes |
| TgStreaming.TickPrice | TG_Reference_code.py:367-412 | exactly the one cell the tick selects becomes the price; every other cell is unchanged; an out-of-range row is the `IndexError` |
| TgStreaming.SizeColumnSpec | TG_Reference_code.py:439-461 | only stock rows with tick 8, 0 or 3 are written, in columns 3 to 5 |
| TgStreaming.SizesAccumulate | TG_Reference_code.py:448-461 | bid and ask sizes accumulate `int(size)`; the delta volume is overwritten |
| TgStreaming.TickSize | TG_Reference_code.py:428-461 | exactly the selected cell changes (tick 8 overwrites column 3, ticks 0 and 3 add `int(size)` to columns 4 and 5); every other cell is unchanged |
| TgStreaming.StreamedInSpec | TG_Reference_code.py:1651-1658 | the selected rows are exactly those with columns 0, 1 and 3 non-zero, in ascending order |
| TgStreaming.SelectStreamed | TG_Reference_code.py:1651-1658 | the loop yields those indices and the matching symbols |

## Left out

- I/O and the broker session: connecting, `nextValidId` callbacks of the connection, `error`, `request_market_data`, threads and queues. These are network I/O and callbacks of a library that is not part of this model.
- The `threading.Lock` of `OrdreFLow_base_vis.py`. Each app method is one sequential, atomic step.
- The visualiser (matplotlib), `parse_args`, `main`, logging and `_log_state`. These are UI, CLI and logging.
- `time.time()` and `datetime.now()`. They are parameters: the aggregation time and the buffer row time of `_record_tick` are separate inputs, as the two calls are.
- Floating point: rounding, overflow and NaN arithmetic. Numbers are exact reals, and NaN is the absent value.
- SlidingHistograms.SlidingHistogram.Expire: a bin is dropped when its sum is exactly zero, not when it is below `1e-9`. Exact arithmetic leaves no residue.
- SlidingHistograms.SlidingHistogram.Add: a bin brought to zero by an addition keeps its entry. This is what the source does: only expiry deletes.
- FreeRows.FindFreeRows: `np.allclose(row, 0.0)` is modelled as every entry within `1e-8` of zero. The relative tolerance vanishes against zero; NaN entries, which fail `allclose`, do not arise in exact reals.
- `round(x, 2)` of the strikes is left out. The strike rules are stated over exact numbers: `round(x / step) * step`, half to even.
- OptionConfigLatest.Render and OptionConfigLatest.ParseRender: rendered entries carry integer offsets only. `float()` itself is modelled for decimals, exponents, `inf` and `nan`.
- PyStr.Upper: only ASCII letters are upper-cased, and `int()`/`float()` accept ASCII digits only, without `_` separators.
- BookWindows.BookWindow.constructor: the window length must be non-negative. The app uses 60, 300 and 1800 seconds.
- Windows: timestamps passed to `add` must not decrease, so the model assumes a clock that never steps back. `time.time()` can step back when the system clock is set back; the source then queues such an event behind newer ones, and because `_expire` stops at the first in-window head it keeps that event queued, and in `snapshot()`, past its window.
- OrderFlowBuffers: the `int32` ticker-id and tick-type columns are unbounded integers.
- `prepare_option_contracts`: the waiting loop and writes to the streaming table are left out, as are `strftime`, `pytz` and contract building. Only its strike rules and the helpers it calls are modelled.
- Calendar: dates are limited to years 1 to 9999, as `datetime` requires. The `OverflowError` past 9999 is not modelled, and the trading-day loops run on unbounded day numbers.
- TgStreaming.SelectStreamed: the symbol list is no longer than the matrix, which has one row per stock plus options and trade slots (TG_Reference_code.py:1513-1522). The second selection loop (over option rows, reusing a stale `i`) and the metadata loop are left out.
- TgStreaming: the matrix has six columns by construction, so column `IndexError`s are not modelled.
- TgOrders.Order: the `ibapi` defaults of the other order fields are not modelled, and unset prices are `None`.
- SlidingHistograms.SlidingHistogram.TopBins: the order among equal sums is stable, as Python's sort is, but the contract does not state it.
- The rest of `TG_Reference_code.py`: the screening and option-chain routines, data streaming, Telegram requests, file writes and the main loop. These are broker, HTTP and file I/O.
