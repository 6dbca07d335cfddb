# Crypto trading bots: order books, signals and decision rules in Dafny

This project models the decision-making core of a set of Python crypto
trading bots and proves properties of that model. The model covers:

- **Order-book replicas.** A Binance futures book checks the
  `pu == last_update_id` sequence before it applies a depth delta. An OKX
  book applies every delta. Both keep `price -> size` maps, where size 0
  deletes a level. Both answer best bid, best ask, mid price and a
  top-N order-book imbalance (OBI).
- **Trade-flow window and signal engine.** `TradeFlow` is a time-pruned
  deque of aggressor flags. Its trade-flow imbalance (TFI) is the buy
  fraction. `SignalEngine` keeps a bounded window of mid prices and a
  throttle timestamp, and emits `long`, `short` or `no-signal`.
- **MACD toolkit** (`macd_signal.py`):
  - the EMA recurrence used by pandas `ewm(adjust=False)`;
  - the in-place reversal of the k-line list;
  - DIF, DEA and histogram columns;
  - golden, death and zero-axis crosses;
  - the confirmed "double cross";
  - pivot points and price/indicator divergences;
  - the EMA(5)/EMA(10) cross.
- **Funding-rate arbitrage between OKX and Backpack:**
  - contract sizing and rounding down to a multiple of the minimum size;
  - the direction table and its hold rules;
  - the annualised ranking, sorted in descending order;
  - the settlement-window check;
  - the choice of the first openable candidate;
  - the order-side mapping used to open and close.
- **Trend-bot position monitors.** Three polling loops decide when to
  close a position:
  - the Backpack bot: stop loss, take profit, a "halving" trailing stop
    and a least-squares slope exit over 9 prices;
  - the Backpack EMA bot: stop loss, a latched profit trigger, the halving
    stop, a mean-of-9 vs mean-of-21 exit and take profit;
  - the OKX bot: stop loss, a leveraged drawdown from the peak price and a
    slope exit over 6 prices.

  The two-candle entry rule and the MA/MACD volume strategies are modelled
  too.
- **Spot volume bot:** the open-order range check, the price band, the
  order quantity, the balance/side decision and the rule that skips one
  side after an unfilled order.
- **Average-cost top-up calculator:** how much to buy at the current price
  to bring the average cost of a holding to a target.

Prices, sizes and rates are exact `real`s. I/O is lifted out of the loops
and passed in as parameters:

- ticker and k-line fetches;
- funding-rate queries;
- exchange balances;
- `time.time()` / `datetime.now()`;
- random order sizes;
- the outcome of placing an order.

Stateful source classes (`OrderBook`, `TradeFlow`, `SignalEngine`) are
Dafny classes. Their methods are specified against pure functions:

- the books by `BookSide.ApplyLevels` and `BookSide.Loaded`;
- the trade window by `TradeFlow.Pruned`;
- the engine by `SignalEngine.Decision`.

The polling loops are methods whose loop invariants tie the loop state to
recursive specifications: running maxima, peaks, the trigger latch, and the
bounded price history as the last n prices seen.

Files: `common.dfy`, `book_side.dfy`, `binance_book.dfy`, `okx_book.dfy`,
`trade_flow.dfy`, `signal_engine.dfy`, `macd.dfy`, `arbitrage.dfy`,
`trend_strategies.dfy`, `linear_fit.dfy`, `trend_monitors.dfy`,
`volume_bot.dfy`, `avg_cost.dfy`. Each file holds one module.

A Binance delta is accepted only when `pu` is absent or equal to the last
update id; a delta whose `pu` is smaller than the last id is rejected.

## Model

| member | source | states |
|---|---|---|
| Common.Mean | binance_exchange/binance_orderbook_trend_bot.py:168 | no contract of its own: `statistics.mean` / `np.mean` as sum over length; `Common.MeanBounds` proves it lies within any bounds of its entries |
| Common.MeanBounds | binance_exchange/binance_orderbook_trend_bot.py:168 | the mean of a non-empty list lies between any lower and upper bound of its entries |
| Common.PushCapped | backpack_exchange/trend_trade_strategy_bot.py:48-50 | no contract of its own: `append` then `pop(0)` once the list is longer than n; `Common.PushCappedWindow` proves it keeps the last n values |
| Common.PushCappedWindow | backpack_exchange/trend_trade_strategy_bot.py:48-50 | pushing onto the last n values of a run gives the last n values of the extended run |
| Common.Trunc | arbitrage_bot/backpack_okx_arbitrage_bot.py:138 | Python's `int()` on a float: for x >= 0 the result r has r <= x < r + 1, and for x < 0 it has r - 1 < x <= r (truncation toward zero) |
| BookSide.ApplyLevel | binance_exchange/binance_orderbook_trend_bot.py:56-62 | after one level, its price is absent if the size is 0 and holds the size otherwise; every other price is unchanged |
| BookSide.ApplyLevelsSnoc | binance_exchange/binance_orderbook_trend_bot.py:56-62 | the update list is applied in order: the last update is applied to the result of the earlier ones |
| BookSide.ApplyLevelIdempotent | binance_exchange/binance_orderbook_trend_bot.py:56-62 | applying the same (price, size) twice equals applying it once |
| BookSide.ApplyLevelsOutside | binance_exchange/binance_orderbook_trend_bot.py:56-62 | a price that no update mentions keeps its old level |
| BookSide.ApplyLevelsInside | binance_exchange/binance_orderbook_trend_bot.py:56-62 | a price that some update mentions ends up the same whatever the starting book |
| BookSide.ApplyLevelsLastWins | binance_exchange/binance_orderbook_trend_bot.py:56-62 | a price gets the size of its last update (absent when that size is 0) |
| BookSide.ApplyLevelsIdempotent | okx_exchange/okx_orderbook_trend_bot.py:43-56 | applying the same update list twice equals applying it once |
| BookSide.ApplyLevelsNonNegative | binance_exchange/binance_orderbook_trend_bot.py:56-62 | non-negative updates keep every size in the book non-negative |
| BookSide.LoadedSnoc | binance_exchange/binance_orderbook_trend_bot.py:48-51 | loading a snapshot assigns its rows in order, overwriting earlier duplicates |
| BookSide.LoadedPrices | binance_exchange/binance_orderbook_trend_bot.py:46-51 | after a snapshot, the book's prices are exactly the snapshot's prices, zero sizes included |
| BookSide.LoadedLastWins | binance_exchange/binance_orderbook_trend_bot.py:48-51 | a duplicated snapshot price gets the size of its last row |
| BookSide.LoadedNonNegative | binance_exchange/binance_orderbook_trend_bot.py:48-51 | a snapshot with non-negative sizes gives a book with non-negative sizes |
| BookSide.MaxKey | binance_exchange/binance_orderbook_trend_bot.py:103 | `max(keys)` of a non-empty side is a key no smaller than any other |
| BookSide.MinKey | binance_exchange/binance_orderbook_trend_bot.py:106 | `min(keys)` of a non-empty side is a key no larger than any other |
| BookSide.BestBid | binance_exchange/binance_orderbook_trend_bot.py:102-103 | None exactly when there are no bids; otherwise the greatest bid price |
| BookSide.BestAsk | binance_exchange/binance_orderbook_trend_bot.py:105-106 | None exactly when there are no asks; otherwise the least ask price |
| BookSide.MidPrice | binance_exchange/binance_orderbook_trend_bot.py:108-113 | None exactly when either side is empty; otherwise the average of best bid and best ask, lying between them when the book is not crossed |
| BookSide.TopVolume | binance_exchange/binance_orderbook_trend_bot.py:93-96 | the volume of the n best levels is non-negative for non-negative sizes, and 0 for n = 0 or an empty side |
| BookSide.TopNImbalance | binance_exchange/binance_orderbook_trend_bot.py:89-100 | 0 when either side is empty; in [-1, 1] for non-negative sizes; its sign is the sign of bid volume minus ask volume |
| BookSide.ImbalanceRatioBounds | binance_exchange/binance_orderbook_trend_bot.py:97-100 | (b - a)/(b + a) lies in [-1, 1] for non-negative volumes and is positive (negative) exactly when b > a (b < a) |
| BinanceBook.OrderBook.constructor | binance_exchange/binance_orderbook_trend_bot.py:39-43 | a new book is empty, has no last update id and is not ready |
| BinanceBook.OrderBook.LoadSnapshot | binance_exchange/binance_orderbook_trend_bot.py:45-53 | the sides become exactly the snapshot's levels (last duplicate wins), the last update id becomes the snapshot's and the book is ready |
| BinanceBook.OrderBook.ApplySide | binance_exchange/binance_orderbook_trend_bot.py:55-62 | one side becomes the old side with the updates applied in order; the other side, the id and readiness are unchanged |
| BinanceBook.OrderBook.ApplyDelta | binance_exchange/binance_orderbook_trend_bot.py:64-87 | accepted exactly when the book is ready, has a last id, and `pu` is absent or equal to it; a rejected delta changes nothing; an accepted one applies bids then asks and sets the last id to `u` |
| OkxBook.Levels | okx_exchange/okx_orderbook_trend_bot.py:37-40 | each row contributes its first two fields, in order |
| OkxBook.LevelsIgnoreExtra | okx_exchange/okx_orderbook_trend_bot.py:37-40 | rows that differ only in extra fields give the same levels |
| OkxBook.OrderBook.constructor | okx_exchange/okx_orderbook_trend_bot.py:29-32 | a new book is empty and not ready |
| OkxBook.OrderBook.LoadSnapshot | okx_exchange/okx_orderbook_trend_bot.py:34-41 | the sides become exactly the snapshot's (price, size) levels and the book is ready |
| OkxBook.OrderBook.ApplyDelta | okx_exchange/okx_orderbook_trend_bot.py:43-56 | always returns true, applies bids then asks with no ready or sequence check, and leaves readiness unchanged |
| OkxBook.DeltaIdempotent | okx_exchange/okx_orderbook_trend_bot.py:43-56 | applying the same delta twice yields the same book as applying it once |
| TradeFlow.PrunedShape | binance_exchange/binance_orderbook_trend_bot.py:133-135 | pruning drops a prefix of older entries only; the kept part is a suffix whose first entry is not older than the cutoff |
| TradeFlow.PrunedKeepsLast | binance_exchange/binance_orderbook_trend_bot.py:131-135 | the entry just appended survives pruning when it is inside the window |
| TradeFlow.PrunedInTimeOrder | binance_exchange/binance_orderbook_trend_bot.py:133-135 | for a time-ordered buffer every kept entry is inside the window |
| TradeFlow.Buys | binance_exchange/binance_orderbook_trend_bot.py:143 | the buy count is at most the buffer length, 0 exactly when there is no buy, and the length exactly when all are buys |
| TradeFlow.ShareAgainstHalf | binance_exchange/binance_orderbook_trend_bot.py:143-144 | the buy share lies in [0, 1] and is above (below) one half exactly when buys are more (less) than half |
| TradeFlow.TradeFlow.constructor | binance_exchange/binance_orderbook_trend_bot.py:125-127 | a new flow has the given window and an empty buffer |
| TradeFlow.TradeFlow.Add | binance_exchange/binance_orderbook_trend_bot.py:129-135 | the buffer becomes the old buffer plus (ts/1000, flag), pruned from the front; for a non-negative window it is non-empty and ends with the new entry |
| TradeFlow.TradeFlow.Tfi | binance_exchange/binance_orderbook_trend_bot.py:137-144 | 0.5 on an empty buffer, always in [0, 1], and above (below) 0.5 exactly when more (fewer) than half the trades are buys |
| SignalEngine.Present | binance_exchange/binance_orderbook_trend_bot.py:161-163 | a value is kept exactly when it arrived as a present mid, and there are never more kept values than mids |
| SignalEngine.PushMid | binance_exchange/binance_orderbook_trend_bot.py:161-163 | a present mid becomes the newest entry of a window that never exceeds MID_SMA_LEN; a missing mid leaves the window unchanged |
| SignalEngine.PushAllKeepsRecent | binance_exchange/binance_orderbook_trend_bot.py:158-163 | after any run of updates the window holds exactly the last MID_SMA_LEN present mids |
| SignalEngine.SignalEngine.constructor | binance_exchange/binance_orderbook_trend_bot.py:157-159 | a new engine has an empty window and throttle timestamp 0 |
| SignalEngine.SignalEngine.UpdateMid | binance_exchange/binance_orderbook_trend_bot.py:161-163 | a present mid is pushed into the bounded window and a missing one is ignored; the window never grows past MID_SMA_LEN; the throttle is unchanged |
| SignalEngine.SignalEngine.MidAboveMa | binance_exchange/binance_orderbook_trend_bot.py:165-173 | the mid can never be both above and below the moving average at once |
| SignalEngine.SignalEngine.MidBelowMa | binance_exchange/binance_orderbook_trend_bot.py:170-173 | no contract of its own: false until the deque is full, then mid < mean; exclusivity with the above test is stated on `MidAboveMa` |
| SignalEngine.SignalEngine.Throttled | binance_exchange/binance_orderbook_trend_bot.py:175-180 | throttled exactly when less than MIN_SIGNAL_INTERVAL has passed; the timestamp moves to now only when not throttled |
| SignalEngine.SignalEngine.Decide | binance_exchange/binance_orderbook_trend_bot.py:182-198 | returns the signal `Decision` prescribes; the timestamp moves to now only when a signal is returned; the window is unchanged |
| SignalEngine.Decision | binance_exchange/binance_orderbook_trend_bot.py:182-200 | no contract of its own: the value `decide` returns from a given window and throttle timestamp; `DecisionMeaning` states when it is long or short, and `SignalEngine.SignalEngine.Decide` is proved equal to it |
| SignalEngine.DecisionMeaning | binance_exchange/binance_orderbook_trend_bot.py:165-198 | "long" iff a mid is present, OBI > 0.2, TFI > 0.6, the window is full, the mid is above its mean and the throttle is open; "short" symmetrically; no mid gives "no-signal" |
| SignalEngine.EmittedSpaced | binance_exchange/binance_orderbook_trend_bot.py:175-198 | over any run of calls, every emitted signal comes at least MIN_SIGNAL_INTERVAL after the previous one and after the starting timestamp |
| Macd.Alpha | okx_exchange/macd_signal.py:7-8 | the smoothing factor 2/(span+1) lies in (0, 1] |
| Macd.Ema | okx_exchange/macd_signal.py:7-8 | the EMA has one value per input |
| Macd.EmaPrefix | okx_exchange/macd_signal.py:7-8 | the EMA is causal: the EMA of a prefix is the prefix of the EMA |
| Macd.EmaRecurrence | okx_exchange/macd_signal.py:7-8 | y0 = x0 and yt = alpha*xt + (1 - alpha)*y(t-1) |
| Macd.EmaSnoc | okx_exchange/macd_signal.py:7-8 | appending one input appends exactly one recurrence step |
| Macd.EmaStepBounds | okx_exchange/macd_signal.py:7-8 | one EMA step stays between bounds that hold for the new price and the previous EMA value |
| Macd.EmaBounds | okx_exchange/macd_signal.py:7-8 | every EMA value lies within the bounds of the inputs |
| Macd.EmaOfConstant | okx_exchange/macd_signal.py:7-8 | the EMA of a constant series is that constant |
| Macd.Reversed | okx_exchange/macd_signal.py:17-18 | the reversal has the same length, with element i taken from position n-1-i |
| Macd.ReversedTwice | okx_exchange/macd_signal.py:17-18 | reversing twice restores the list |
| Macd.ReversedOldestFirst | okx_exchange/macd_signal.py:17-18 | newest-first k-lines become oldest-first |
| Macd.ReverseKlines | okx_exchange/macd_signal.py:11-18 | the caller's array is reversed in place |
| Macd.Closes | okx_exchange/macd_signal.py:19-23 | the close column, row by row |
| Macd.Sub | okx_exchange/macd_signal.py:33 | element-wise difference |
| Macd.MacdOf | okx_exchange/macd_signal.py:29-38 | DIF, DEA and histogram columns all have one value per close |
| Macd.HistSign | okx_exchange/macd_signal.py:33-35 | the histogram is 2*(DIF - DEA) at every row, so its sign is the sign of DIF - DEA |
| Macd.MacdOfFlat | okx_exchange/macd_signal.py:29-38 | flat prices give zero DIF, DEA and histogram |
| Macd.CalcMacd | okx_exchange/macd_signal.py:29-38 | reverses the k-lines in place and returns their closes with the MACD columns computed from them |
| Macd.CrossUp | okx_exchange/macd_signal.py:50 | no contract of its own: `prev_dif < prev_dea & DIF > DEA`, false on row 0; `Crosses` and `CrossImpliesZeroCross` relate it to the other flags |
| Macd.CrossDown | okx_exchange/macd_signal.py:51 | no contract of its own: the mirror of `CrossUp`; `Crosses` proves the two never fire together |
| Macd.ZeroUp | okx_exchange/macd_signal.py:54 | no contract of its own: hist from <= 0 to > 0; `Crosses` proves it equals `HistRedToGreen` row by row |
| Macd.ZeroDown | okx_exchange/macd_signal.py:55 | no contract of its own: hist from >= 0 to < 0; `Crosses` proves it equals `HistGreenToRed` row by row |
| Macd.HistRedToGreen | okx_exchange/macd_signal.py:58 | no contract of its own: the same test as `zero_up`, written separately in the source; `Crosses` proves the columns equal |
| Macd.HistGreenToRed | okx_exchange/macd_signal.py:59 | no contract of its own: the same test as `zero_down`; `Crosses` proves the columns equal |
| Macd.Crosses | okx_exchange/macd_signal.py:44-60 | every flag column has one value per row; nothing fires at row 0; golden and death never fire together, nor zero_up and zero_down; zero_up equals hist_red_to_green and zero_down equals hist_green_to_red |
| Macd.CrossImpliesZeroCross | okx_exchange/macd_signal.py:50-55 | a golden (death) cross of DIF over DEA is a rise (fall) of the histogram through zero |
| Macd.Positions | okx_exchange/macd_signal.py:89-90 | the positions of the true flags, strictly increasing, each one a true flag and every true flag listed |
| Macd.MaxAbs | okx_exchange/macd_signal.py:81-82 | the largest absolute histogram value in a window, attained in the window |
| Macd.Marks | okx_exchange/macd_signal.py:76-84 | the flag column keeps its length |
| Macd.MarksOnlyConfirmed | okx_exchange/macd_signal.py:76-84 | a row is flagged only if it was already flagged or it is a non-first cross within lookback of the previous cross whose peak \|hist\| exceeds the previous one's |
| Macd.MarksComplete | okx_exchange/macd_signal.py:76-84 | every confirmed cross row is flagged |
| Macd.MarkDouble | okx_exchange/macd_signal.py:76-84 | the loop writes exactly the flags `Marks` prescribes into the column |
| Macd.DoubleCross | okx_exchange/macd_signal.py:67-93 | the double_golden and double_death columns are the marks over the golden and death cross positions |
| Macd.DoubleMeaning | okx_exchange/macd_signal.py:76-84 | a row is flagged iff it is the k-th cross (k >= 1) with gap <= lookback and a strictly larger peak than cross k-1 |
| Macd.MinOf | okx_exchange/macd_signal.py:107 | the minimum of a window, attained in it |
| Macd.MaxOf | okx_exchange/macd_signal.py:109 | the maximum of a window, attained in it |
| Macd.PivotLow | okx_exchange/macd_signal.py:101-107 | no contract of its own: the centred rolling minimum equals the value; `PivotLowMeaning` restates it without the window minimum |
| Macd.PivotHigh | okx_exchange/macd_signal.py:101-109 | no contract of its own: the centred rolling maximum equals the value; `PivotHighMeaning` restates it without the window maximum |
| Macd.PivotLowMeaning | okx_exchange/macd_signal.py:101-107 | a pivot low is at least win rows from both ends and no value in its centred window is lower |
| Macd.PivotHighMeaning | okx_exchange/macd_signal.py:101-109 | a pivot high is at least win rows from both ends and no value in its centred window is higher |
| Macd.PivotLows | okx_exchange/macd_signal.py:117-119 | the pivot-low column flags exactly the pivot lows |
| Macd.PivotHighs | okx_exchange/macd_signal.py:118-120 | the pivot-high column flags exactly the pivot highs |
| Macd.LastTwo | okx_exchange/macd_signal.py:131-132 | the last two values when there are at least two, otherwise nothing |
| Macd.BullishDiv | okx_exchange/macd_signal.py:122-142 | the bullish column has one value per row and at most one row set |
| Macd.BearishDiv | okx_exchange/macd_signal.py:123-147 | the bearish column has one value per row and at most one row set |
| Macd.LastTwoPositions | okx_exchange/macd_signal.py:126-137 | `last_two` of a column's flagged rows is [a, b] exactly when a < b are flagged, no row between them is flagged and no row after b is |
| Macd.BullishMeaning | okx_exchange/macd_signal.py:126-142 | a bullish row i is the later of the last two price pivot lows p < i (no price pivot low between them or after i) with price[i] < price[p], and the indicator's last two pivot lows a < b have ind[a] < ind[b] |
| Macd.BullishFromPivots | okx_exchange/macd_signal.py:126-142 | conversely, when the last two price pivot lows p < i make a lower low and the indicator's last two pivot lows make a higher low, row i is flagged bullish |
| Macd.BearishMeaning | okx_exchange/macd_signal.py:128-147 | a bearish row i is the later of the last two price pivot highs p < i (no price pivot high between them or after i) with price[i] > price[p], and the indicator's last two pivot highs a < b have ind[a] > ind[b] |
| Macd.BearishFromPivots | okx_exchange/macd_signal.py:128-147 | conversely, when the last two price pivot highs make a higher high and the indicator's last two pivot highs make a lower high, row i is flagged bearish |
| Macd.EmaGoldenCross | okx_exchange/macd_signal.py:175-184 | one flag per close |
| Macd.EmaDeathCross | okx_exchange/macd_signal.py:175-185 | one flag per close |
| Macd.EmaCrossFlat | okx_exchange/macd_signal.py:175-186 | flat prices produce no EMA cross |
| Macd.EmaCrossExclusive | okx_exchange/macd_signal.py:184-185 | an EMA golden and death cross never fire on the same row |
| Arbitrage.InstrumentTable | arbitrage_bot/backpack_okx_arbitrage_bot.py:46-54 | every listed instrument has a positive minimum size and contract value; FARTCOIN and HYPE are not listed |
| Arbitrage.CalcQty | arbitrage_bot/backpack_okx_arbitrage_bot.py:66-78 | contracts times price times contract value equals margin times leverage |
| Arbitrage.CalcQtyBackpack | arbitrage_bot/backpack_okx_arbitrage_bot.py:82-93 | coins times price equals margin times leverage |
| Arbitrage.ContractsTimesValue | arbitrage_bot/backpack_okx_arbitrage_bot.py:66-93 | OKX contracts times contract value is the Backpack coin quantity |
| Arbitrage.RoundDownToMin | arbitrage_bot/backpack_okx_arbitrage_bot.py:441-442 | no contract of its own: `int(raw // minsz) * minsz` over exact reals; `RoundDownBounds` proves it is a whole multiple of minsz within one minsz below raw |
| Arbitrage.RoundDownBounds | arbitrage_bot/backpack_okx_arbitrage_bot.py:441-442 | `int(raw // minsz) * minsz` is a whole multiple of minsz, within one minsz below raw, and non-negative for raw >= 0 |
| Arbitrage.Directions | arbitrage_bot/backpack_okx_arbitrage_bot.py:154-167 | the two legs are always opposite (short/long or long/short) or both hold; `DirectionTable` proves which case each rate ordering gives |
| Arbitrage.DirectionTable | arbitrage_bot/backpack_okx_arbitrage_bot.py:154-167 | OKX short / Backpack long iff the OKX rate is higher, long/short iff it is lower, hold/hold iff the rates are equal |
| Arbitrage.DirectionsAntisymmetric | arbitrage_bot/backpack_okx_arbitrage_bot.py:154-167 | swapping the two rates swaps the two actions |
| Arbitrage.LegsHedge | arbitrage_bot/backpack_okx_arbitrage_bot.py:154-167 | for different rates both legs get an order side, and OKX sells exactly when Backpack bids |
| Arbitrage.Actions | arbitrage_bot/backpack_okx_arbitrage_bot.py:154-176 | hold/hold when the funding times differ or the OKX symbol has no instrument data; otherwise the direction table |
| Arbitrage.Annualized | arbitrage_bot/backpack_okx_arbitrage_bot.py:152 | the annualised rate is non-negative and zero exactly when the diff is zero |
| Arbitrage.CandidateOf | arbitrage_bot/backpack_okx_arbitrage_bot.py:150-188 | a result row holds the symbols, the diff, its annualised value, the actions and the OKX funding time |
| Arbitrage.Rows | arbitrage_bot/backpack_okx_arbitrage_bot.py:145-190 | at most one row per quote |
| Arbitrage.RowsFromQuotes | arbitrage_bot/backpack_okx_arbitrage_bot.py:146-190 | every row comes from a pair whose rates were fetched, and every such pair has a row; failed fetches are dropped |
| Arbitrage.InsertDesc | arbitrage_bot/backpack_okx_arbitrage_bot.py:192 | insertion adds exactly one row |
| Arbitrage.SortDesc | arbitrage_bot/backpack_okx_arbitrage_bot.py:192 | sorting keeps the number of rows |
| Arbitrage.InsertDescPermutes | arbitrage_bot/backpack_okx_arbitrage_bot.py:192 | insertion adds the row to the multiset of rows |
| Arbitrage.ConsSortedDesc | arbitrage_bot/backpack_okx_arbitrage_bot.py:192 | a row no smaller than a sorted tail keeps the list sorted |
| Arbitrage.InsertDescSorted | arbitrage_bot/backpack_okx_arbitrage_bot.py:192 | insertion into a sorted list keeps it sorted by annualised value, descending |
| Arbitrage.SortDescCorrect | arbitrage_bot/backpack_okx_arbitrage_bot.py:192 | the sort result is sorted descending and a permutation of its input |
| Arbitrage.InsertDescStable | arbitrage_bot/backpack_okx_arbitrage_bot.py:192 | inserting into a ranked list places the new row after every row with the same return and keeps the order of the others |
| Arbitrage.SortDescStable | arbitrage_bot/backpack_okx_arbitrage_bot.py:192 | the sort is stable: rows with equal annualised return keep their input order, so among ties the first fetched pair is opened first |
| Arbitrage.FundingRateDiff | arbitrage_bot/backpack_okx_arbitrage_bot.py:144-198 | the result is exactly the stable descending sort `SortDesc` of the rows for the fetched pairs, so it is sorted by annualised value, a permutation of those rows, and ties keep fetch order |
| Arbitrage.WithinFundingWindow | arbitrage_bot/backpack_okx_arbitrage_bot.py:136-140 | no contract of its own: `0 <= int(seconds to settlement) <= window*60` with truncation toward zero; `WindowMeaning` characterises it as an interval |
| Arbitrage.WindowMeaning | arbitrage_bot/backpack_okx_arbitrage_bot.py:136-140 | inside the window iff the seconds to settlement are above -1 and below window*60 + 1: truncation widens both ends by just under a second |
| Arbitrage.Openable | arbitrage_bot/backpack_okx_arbitrage_bot.py:417-423 | no contract of its own: the loop's filter (annualised >= 0.07, both actions not hold, inside the settlement window); `OpenableMeaning` states what it implies about the pair |
| Arbitrage.OpenableMeaning | arbitrage_bot/backpack_okx_arbitrage_bot.py:417-423 | an openable row has instrument data, equal funding times, different rates, annualised diff >= 0.07 and settlement inside the 30-minute window |
| Arbitrage.LegsAt | arbitrage_bot/backpack_okx_arbitrage_bot.py:441-450 | sizing at a mid price either sizes both legs or skips the entry, never raises |
| Arbitrage.SizeCorrected | arbitrage_bot/backpack_okx_arbitrage_bot.py:428-450 | with the price guard first, a listed symbol never raises, and a missing price skips the entry |
| Arbitrage.SizedLegs | arbitrage_bot/backpack_okx_arbitrage_bot.py:436-450 | sized legs are positive; the OKX leg is a whole number of minimum sizes, at most the raw count; the Backpack leg is the OKX leg times the contract value |
| Arbitrage.SizeAsWritten | arbitrage_bot/backpack_okx_arbitrage_bot.py:436-447 | as written: a missing ticker price always raises; a sized entry has both prices present and non-zero |
| Arbitrage.SizingAgrees | arbitrage_bot/backpack_okx_arbitrage_bot.py:436-450 | the written and corrected sizing agree unless the written one raises, and then the corrected one skips |
| Arbitrage.MissingTickerRaises | arbitrage_bot/backpack_okx_arbitrage_bot.py:436-441 | with no Backpack price for SOL, the written code raises and the corrected code skips |
| Arbitrage.Choose | arbitrage_bot/backpack_okx_arbitrage_bot.py:417-533 | an opened row is openable, in the results and fully sized; with the corrected sizing and listed symbols the pass never stops the loop |
| Arbitrage.OkxOpenSide | arbitrage_bot/backpack_okx_arbitrage_bot.py:204-205 | anything but long/short is refused; short sells and long buys |
| Arbitrage.BackpackOpenSide | arbitrage_bot/backpack_okx_arbitrage_bot.py:310-323 | anything but long/short is refused; long bids and short asks |
| Arbitrage.OkxCloseSide | arbitrage_bot/backpack_okx_arbitrage_bot.py:289 | the close order's side is never the side of the order being closed (`buy` if it sold, else `sell`) |
| Arbitrage.BackpackCloseSide | arbitrage_bot/backpack_okx_arbitrage_bot.py:385 | the close side is never the opening side (a Bid is closed by an Ask, anything else by a Bid) |
| Arbitrage.CloseReverses | arbitrage_bot/backpack_okx_arbitrage_bot.py:289 | closing an OKX or Backpack leg uses the side opposite to the one that opened it |
| TrendStrategies.OpenDirection | backpack_exchange/trend_trade_strategy_bot.py:111-121 | no contract of its own: the up/down test on the two candles; `OpenDirectionMeaning` and `OpenDirectionMirror` characterise it |
| TrendStrategies.OpenDirectionMeaning | backpack_exchange/trend_trade_strategy_bot.py:111-121 | "long" iff both candles close above their open, "short" iff both close below, otherwise no direction |
| TrendStrategies.OpenDirectionMirror | okx_exchange/okx_trend_trade_strategy_bot.py:111-121 | mirroring both candles mirrors the direction |
| TrendStrategies.VolumeSpike | backpack_exchange/trend_trade_strategy_bot.py:143 | a volume spike needs at least one earlier volume, since the mean of an empty slice is NaN and the comparison is false |
| TrendStrategies.MaVolumeStrategy | backpack_exchange/trend_trade_strategy_bot.py:135-155 | no contract of its own: the EMA(9)/EMA(26) cross with the volume branches; `MaVolumeIgnoresVolume` proves only the cross decides |
| TrendStrategies.MaVolumeIgnoresVolume | backpack_exchange/trend_trade_strategy_bot.py:135-155 | the MA strategy's answer depends only on the EMA cross: "long" iff an upward cross, "short" iff a downward cross, whatever the volumes and the flag |
| TrendStrategies.MacdVolumeStrategy | backpack_exchange/trend_trade_strategy_bot.py:159-174 | no contract of its own: the MACD/signal cross gated by the volume spike; `MacdVolumeMeaning` states both directions |
| TrendStrategies.MacdVolumeMeaning | backpack_exchange/trend_trade_strategy_bot.py:159-174 | a MACD signal needs both the cross and a last volume above the mean of up to five before it |
| LinearFit.VarPositive | backpack_exchange/trend_trade_strategy_bot.py:85-87 | the spread of at least two distinct sample positions is positive, so the fitted slope is defined |
| LinearFit.SumOfLine | backpack_exchange/trend_trade_strategy_bot.py:85-87 | the sum of prices lying on a line a + b*i |
| LinearFit.MeanOfLine | backpack_exchange/trend_trade_strategy_bot.py:85-87 | the mean of prices on a line is the line's value at the middle position |
| LinearFit.CovOfLine | backpack_exchange/trend_trade_strategy_bot.py:85-87 | for prices on a line, the covariance with position is the slope times the variance |
| LinearFit.Slope | backpack_exchange/trend_trade_strategy_bot.py:84-87 | no contract of its own: covariance over variance of the positions, the exact degree-1 least-squares slope; `SlopeOfLine` and `SlopeShift` characterise it |
| LinearFit.SlopeOfLine | backpack_exchange/trend_trade_strategy_bot.py:85-87 | the least-squares slope of prices on a line a + b*i is b |
| LinearFit.SlopeShift | okx_exchange/okx_trend_trade_strategy_bot.py:80-83 | adding a constant to every price leaves the slope unchanged |
| TrendMonitors.Pnl | backpack_exchange/trend_trade_strategy_bot.py:53-54 | no contract of its own: the leveraged return, long vs. short; `PnlSign` proves its sign follows the price move |
| TrendMonitors.PnlSign | backpack_exchange/trend_trade_strategy_bot.py:53-54 | the leveraged PnL is positive iff the price moved in the position's direction |
| TrendMonitors.MaxPnl | backpack_exchange/trend_trade_strategy_bot.py:41-57 | the running max PnL, starting at 0, is non-negative, at least every PnL seen, and 0 or one of them |
| TrendMonitors.MaxPnlMonotone | backpack_exchange/trend_trade_strategy_bot.py:57 | the max PnL never decreases as prices arrive |
| TrendMonitors.HalvingStop | backpack_exchange/trend_trade_strategy_bot.py:78 | no contract of its own: `ceil(max/2*100)/100`; `HalvingStopBounds` bounds it to [max/2, max/2 + 0.01) |
| TrendMonitors.HalvingStopBounds | backpack_exchange/trend_trade_strategy_bot.py:78 | `ceil(max/2*100)/100` is at least max/2 and less than max/2 + 0.01 |
| TrendMonitors.HalvingFiresMeaning | backpack_exchange/trend_trade_strategy_bot.py:77-81 | when the halving stop fires, the PnL has given back at least half of its maximum |
| TrendMonitors.PolledWindow | backpack_exchange/trend_trade_strategy_bot.py:48-50 | append-then-pop keeps exactly the last n prices seen |
| TrendMonitors.SlopeExit | backpack_exchange/trend_trade_strategy_bot.py:84-93 | no contract of its own: with a full history, exit when the fitted slope is against the position or below 0.001 in size; `SlopeExitOnLine` evaluates it on straight lines |
| TrendMonitors.SlopeExitOnLine | backpack_exchange/trend_trade_strategy_bot.py:84-93 | for prices on a line with slope b, the slope exit fires iff b is against the position or \|b\| < 0.001; flat prices always exit |
| TrendMonitors.BackpackExit | backpack_exchange/trend_trade_strategy_bot.py:67-82 | no contract of its own: stop loss, take profit and the halving stop; `BackpackHoldsInBand` proves none of them fires inside the loss/halving band |
| TrendMonitors.BackpackHoldsForMeaning | backpack_exchange/trend_trade_strategy_bot.py:45-93 | the position stays open through n polls iff no exit rule fires at any of them |
| TrendMonitors.BackpackHoldsInBand | backpack_exchange/trend_trade_strategy_bot.py:67-93 | while the PnL stays strictly between the stop loss and 0.04 (so take profit and halving stay off), only the slope rule can close the position, and only once 9 prices are held |
| TrendMonitors.MonitorBackpack | backpack_exchange/trend_trade_strategy_bot.py:39-93 | the loop closes at the first poll where an exit rule fires, and not before; its history is the last 9 prices seen and its max PnL the running maximum |
| TrendMonitors.BackpackPoll | backpack_exchange/trend_trade_strategy_bot.py:46-93 | one poll closes exactly when an exit rule fires, and updates the history and max PnL as prescribed |
| TrendMonitors.TriggeredMeaning | backpack_exchange/trend_trade_strategy_ema_bot.py:39-68 | the trigger is set iff some PnL seen so far reached PROFIT_TRIGGER |
| TrendMonitors.TriggeredStays | backpack_exchange/trend_trade_strategy_ema_bot.py:66-68 | once set, the trigger never reverts |
| TrendMonitors.EmaHoldsForMeaning | backpack_exchange/trend_trade_strategy_ema_bot.py:42-92 | the position stays open through n polls iff no exit rule fires at any of them |
| TrendMonitors.MeanCrossUsesRecentPrices | backpack_exchange/trend_trade_strategy_ema_bot.py:78-88 | the mean-cross exit on the 60-entry history only uses the last 21 prices seen |
| TrendMonitors.EmaHalvingNeedsTrigger | backpack_exchange/trend_trade_strategy_ema_bot.py:61-92 | before any PnL reached the trigger, an exit is a stop loss, a mean cross or take profit; the halving stop cannot fire |
| TrendMonitors.MeanCrossExit | backpack_exchange/trend_trade_strategy_ema_bot.py:78-88 | no contract of its own: mean of the last 9 vs. the last 21 prices; `MeanCrossOnHistory` and `MeanCrossUsesRecentPrices` characterise it |
| TrendMonitors.MeanCrossOnHistory | backpack_exchange/trend_trade_strategy_ema_bot.py:78-88 | the mean-cross exit needs at least 21 prices; long exits when mean9 < mean21 and short when mean9 > mean21 |
| TrendMonitors.EmaRules | backpack_exchange/trend_trade_strategy_ema_bot.py:60-92 | the rules run in source order: the latch is set at PROFIT_TRIGGER, and the poll closes iff the stop loss, the latched halving stop, the mean cross or take profit fires |
| TrendMonitors.EmaPoll | backpack_exchange/trend_trade_strategy_ema_bot.py:43-92 | one poll closes exactly when an exit rule fires, and updates the history, max PnL and latch as prescribed |
| TrendMonitors.MonitorEma | backpack_exchange/trend_trade_strategy_ema_bot.py:34-92 | the loop closes at the first poll where an exit rule fires; its history is the last 60 prices, the max PnL the running maximum and the latch set iff the trigger was reached |
| TrendMonitors.Peak | okx_exchange/okx_trend_trade_strategy_bot.py:42-61 | for a long position the peak is the maximum of the entry and all prices seen, for a short the minimum |
| TrendMonitors.PeakPositive | okx_exchange/okx_trend_trade_strategy_bot.py:58-61 | with positive prices the peak is positive |
| TrendMonitors.OkxDrawDown | okx_exchange/okx_trend_trade_strategy_bot.py:64-65 | no contract of its own: the leveraged give-back from the peak; `OkxDrawDownNonNegative` proves it is never negative |
| TrendMonitors.OkxDrawDownNonNegative | okx_exchange/okx_trend_trade_strategy_bot.py:64-65 | the leveraged drawdown from the peak is never negative, in either direction |
| TrendMonitors.OkxHoldsForMeaning | okx_exchange/okx_trend_trade_strategy_bot.py:45-91 | the position stays open through n polls iff no exit rule fires at any of them |
| TrendMonitors.MonitorOkx | okx_exchange/okx_trend_trade_strategy_bot.py:41-91 | the loop closes at the first poll where the stop loss, the drawdown rule or the slope rule fires; its history is the last 6 prices and its peak the running extreme |
| TrendMonitors.OkxPoll | okx_exchange/okx_trend_trade_strategy_bot.py:46-91 | one poll closes exactly when an exit rule fires, and updates the history and peak as prescribed |
| VolumeBot.OrderExistsInRange | backpack_exchange/sol_usdc_limit_volume_bot.py:42-52 | true iff some order for SOL_USDC has min <= price*quantity <= max |
| VolumeBot.RoundHalfEven | backpack_exchange/sol_usdc_limit_volume_bot.py:117-118 | rounds to an integer within one half of its input |
| VolumeBot.RoundHalfEvenMonotone | backpack_exchange/sol_usdc_limit_volume_bot.py:117-118 | rounding never reverses order |
| VolumeBot.Round2 | backpack_exchange/sol_usdc_limit_volume_bot.py:154-160 | `round(x, 2)` is within 0.005 of x |
| VolumeBot.Round2Monotone | backpack_exchange/sol_usdc_limit_volume_bot.py:154-160 | `round(x, 2)` never reverses order |
| VolumeBot.BuyPrice | backpack_exchange/sol_usdc_limit_volume_bot.py:154 | no contract of its own: `round(last * (1 - SLIPPAGE), 2)`; `BandOrdered` bounds it |
| VolumeBot.SellPrice | backpack_exchange/sol_usdc_limit_volume_bot.py:155 | no contract of its own: `round(last * (1 + SLIPPAGE), 2)`; `BandOrdered` bounds it |
| VolumeBot.BasePrice | backpack_exchange/sol_usdc_limit_volume_bot.py:157 | no contract of its own: the BUY price for BUY, otherwise the SELL price; `BandOrdered` orders the two |
| VolumeBot.BandOrdered | backpack_exchange/sol_usdc_limit_volume_bot.py:154-157 | the BUY price is at most the SELL price, and both stay within half a cent of the slippage band around the last price |
| VolumeBot.Quantity | backpack_exchange/sol_usdc_limit_volume_bot.py:160 | no contract of its own: `round(usd_value / base_price, 2)`; `QuantityNotional` and `QuantityMonotone` state its meaning |
| VolumeBot.QuantityNotional | backpack_exchange/sol_usdc_limit_volume_bot.py:159-160 | the rounded quantity times the order price is within 0.005 * price of the USD value |
| VolumeBot.QuantityMonotone | backpack_exchange/sol_usdc_limit_volume_bot.py:159-160 | a larger USD value never buys a smaller quantity |
| VolumeBot.BalanceDecision | backpack_exchange/sol_usdc_limit_volume_bot.py:121-134 | insufficient iff both needs exceed the balances; the requested side whenever its balance suffices; any side returned has a sufficient balance |
| VolumeBot.CheckBalance | backpack_exchange/sol_usdc_limit_volume_bot.py:112-134 | the decision on the rounded needs and on the balances, with a missing balance read as 0 |
| VolumeBot.Rounds | backpack_exchange/sol_usdc_limit_volume_bot.py:144-185 | no contract of its own: the rounds the `for side` loop goes through; `RoundsAttempt`, `RoundsSides`, `SkipExactlyOnce` and `NoFundsIsLast` characterise it |
| VolumeBot.RoundsAttempt | backpack_exchange/sol_usdc_limit_volume_bot.py:144-185 | a placed or failed order records its side and continues with the updated `filled` flag |
| VolumeBot.RoundsSides | backpack_exchange/sol_usdc_limit_volume_bot.py:148 | rounds alternate BUY, SELL, BUY, ... |
| VolumeBot.SkipExactlyOnce | backpack_exchange/sol_usdc_limit_volume_bot.py:149-152 | every skip comes right after an order that did not fill, every such order that is not last is followed by a skip, and the first round is a skip iff the flag starts down |
| VolumeBot.NoFundsIsLast | backpack_exchange/sol_usdc_limit_volume_bot.py:164-167 | insufficient funds ends the loop: it can only be the last round |
| VolumeBot.RunVolumeLoop | backpack_exchange/sol_usdc_limit_volume_bot.py:137-185 | the loop produces exactly the rounds `Rounds` prescribes |
| AvgCost.AdditionalAmount | data_analyse/avg_cost_calculator.py:10-32 | no recommendation iff target equals price or x <= 0; otherwise a positive amount, cost amount*price, and new holding qty + amount > qty |
| AvgCost.TopUpReachesTarget | data_analyse/avg_cost_calculator.py:12-32 | the total cost after the top-up is target times the new holding, so the new average is the target |
| AvgCost.TopUpUnique | data_analyse/avg_cost_calculator.py:12-22 | any positive amount that reaches the target average is the one recommended |
| AvgCost.TopUpWhenPriceBelowTarget | data_analyse/avg_cost_calculator.py:15-28 | with a holding, a price below a target that is below the current cost gives a recommendation |
| AvgCost.NoTopUpWhenPriceAboveTarget | data_analyse/avg_cost_calculator.py:15-26 | when the target is at most the current cost and the price is above the target, there is no recommendation |

## Left out

- Networking, WebSockets, REST snapshots, exchange SDK calls, order placement, fill polling, logging and printing are left out. Ticker prices, funding rates, balances, k-lines, random order sizes and order outcomes are parameters.
- `time.sleep`, `time.time()` and `datetime.now()`: time is a parameter. The threading `__main__` launchers are not part of this model.
- Floating point: every quantity is an exact real. Python's `round(x, 2)` is modelled as half-even rounding of the exact value, not of its binary approximation.
- `np.polyfit` is modelled as the exact least-squares slope, computed in `LinearFit.Slope`.
- talib EMA/MACD outputs are taken as input sequences. The NaN warm-up values of talib and pandas are not modelled.
- `consolidation_and_momentum` (rolling quantile) and `macd_signals` (a fixed composition of the modelled steps) are left out. So are the timestamp/timezone conversion in `kline_to_dataframe` and the float casts of the k-line columns.
- Direction strings other than `long`/`short` in the trend monitors: a position side is a two-valued datatype. In the arbitrage order helpers such a string raises, which is modelled as `None`.
- `TrendMonitors.MonitorOkx`: requires a positive entry and positive prices. A missing ticker, which gives `current_price = None` and raises in the source, is not modelled.
- The OKX trend bot's `LOSS_LIMIT = 0.2` and `PROFIT_DRAWBACK = 0.2` are unused by its monitor, which uses the literals -0.2 and 0.3. The model follows the literals.
- `Arbitrage.SizedLegs`: does not model `round(okx_qty, 4)` and `round(backpack_qty, 4)`. They only trim float noise, and over exact reals the multiple of the minimum size is already exact.
- The arbitrage position-monitoring branch (expected-profit logging, closing at settlement) and the close-on-exception path are left out. They are order placement and I/O. Only the side mappings of the close functions are modelled.
- `VolumeBot.RunVolumeLoop`: takes each round's attempt outcome as input. It records the round's own side, not the side `check_balance` may flip to. It does not model the exception handler that cancels all orders and restarts the `for` at BUY. `wait_for_fill` and its random test variant are outcome inputs.
- The volume bot's start-up check cancels orders when `OrderExistsInRange` holds. The cancel itself is I/O and is left out.
- The average-cost calculator's `input()` parsing and its `ValueError` path are left out; the four numbers are parameters.
- `TradeFlow` and `SignalEngine` appear twice in the source with identical code (okx_exchange/okx_orderbook_trend_bot.py:85-140); each is modelled once.
- `get_open_direction_15mkline` exists in the Backpack and OKX trend bots. Its up/down decision (backpack_exchange/trend_trade_strategy_bot.py:111-121, okx_exchange/okx_trend_trade_strategy_bot.py:110-121) is identical and is modelled once as `TrendStrategies.OpenDirection`. The k-line fetch differs (second timestamps and `get_kline` on Backpack, millisecond timestamps and `get_mark_price_candlesticks` on OKX) and is I/O, so it is left out.
- The OKX order book's `top_n_imbalance`, `best_bid`, `best_ask` and `mid_price` (okx_exchange/okx_orderbook_trend_bot.py:58-81) are the same functions as the Binance book's. `BookSide` models them once for both.
- `defaultdict(float)`: reading a missing price would insert 0. The modelled code only reads keys that exist, so the books are plain maps.

## Findings

| source | as written | input that shows it | evidently intended | confidence | as-written member | corrected member |
|---|---|---|---|---|---|---|
| arbitrage_bot/backpack_okx_arbitrage_bot.py:436-447 | `calc_qty((okx_price + backpack_price) / 2, ...)` runs before the `if not price` guard, so a missing ticker raises a TypeError. The outer handler (line 595) then ends `arbitrage_loop`. | An openable SOL entry with OKX price 150.0 and no Backpack ticker | A missing price skips the entry (`continue`) and the loop goes on to the next candidate | not executed | Arbitrage.MissingTickerRaises | Arbitrage.SizeCorrected |
