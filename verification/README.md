# Super simple stock market — a Dafny model

This project models the core of a small stock-market kata. The core has two parts.

- **The reference store (`StocksData`).** It holds a fixed five-row dividend table (TEA, POP, ALE, GIN, JOE) and an append-only trade log. It is a get-or-create singleton: the first `StocksData()` assigns both tables, and every later call returns the same instance without touching them. Its only mutation is `record_trade`, which appends one record. The store module's copy raises on failure. The calculator module's copy returns an error message instead. Both leave the log unchanged on failure.
- **The calculator (`SuperSimpleStockMarket`).** It only reads the store. It provides:
  - symbol membership in either table;
  - dividend yield (Common: last dividend / price; Preferred: fixed dividend × par value / price);
  - P/E ratio (price / last dividend);
  - the volume-weighted price of a symbol's trades inside a trailing time window;
  - the selection of the last-inserted trade price per symbol, which is the input of the geometric mean.

Modules:

- `numerics.dfy`, module `Numerics`:
  - a float is a finite exact `real`, `NaN`, or a signed infinity;
  - division follows IEEE-754 when the divisor is zero;
  - `np.round(x, 2)` is exact rounding to hundredths, with ties going to the even neighbour.
- `stocks_data.dfy`, module `Stocks`:
  - the row and record types and the seed table;
  - the class `StocksData`, whose single object stands for the Python class and its one instance. `initialized` plays the role of `_instance is not None`;
  - two scenario methods taken from the store's unit tests.
- `market.dfy`, module `Market`: the calculators, as pure functions over a `Tables` snapshot of the store.
- `market_properties.dfy`, module `MarketProperties`: lemmas relating the dividend yield and the P/E ratio to the exact ratios they round, the seeded examples, and the last-inserted selection.
- `vwap_properties.dfy`, module `VwapProperties`: lemmas about the volume-weighted price.
  - It is the rounded weighted mean over exactly the symbol's trades inside the window, each counted as often as the log holds it, in any order.
  - It lies in the window's price range.
  - Trades outside the window do not move it.

Errors are a datatype instead of free-form strings: `NotFound(symbol, dataset)`, `InvalidType`, `Other(symbol)`. A calculator returns `Err(...)` where the source returns a message, and `Ok(NaN)` where it returns `np.nan`. `RecordTrade` returns `Raised(e)` where the source raises. `RecordTradeReporting` returns `Some(e)` where the source returns a message.

Three behaviours of the code are easy to miss, and the model keeps them:

- A zero last dividend is not guarded. The P/E calculation tests only for a missing (NaN) dividend and otherwise divides, so TEA, whose last dividend is 0, gets a P/E of +∞ (`SeedPeRatioTea`).
- `record_trade` checks no field. It only reports what the table library raises while building or concatenating the record, which the model receives as the `fault` parameter.
- Any indicator text, price and quantity sign is stored as given.

## Model

| member | source | states |
|---|---|---|
| `Numerics.Divide` | src/super_simple_stock_market.py:130 | a float quotient is finite exactly when the divisor is non-zero and then multiplies back to the dividend; 0/0 is NaN; otherwise a zero divisor gives an infinity with the dividend's sign |
| `Numerics.Round2` | src/super_simple_stock_market.py:190 | `np.round(x, 2)` lies within 0.005 of x and is a whole number of hundredths |
| `Numerics.RoundHalfEven` | src/super_simple_stock_market.py:190 | the nearest integer to x, with a tie going to the even integer, and x itself when x is whole |
| `Numerics.RoundFloat` | src/super_simple_stock_market.py:130 | rounding keeps NaN and the infinities, moves a finite value by at most 0.005, and leaves it a whole number of hundredths |
| `Numerics.Round2Exact` | src/super_simple_stock_market.py:157 | a value that already has two decimals is unchanged by rounding |
| `Stocks.SeedTableInvariants` | src/stocks_data.py:34-40 | `SeedTable`, the literal seed of the dividend table, has five rows with distinct symbols; each row has a non-negative last dividend and a positive par value; a fixed dividend is present exactly on Preferred rows; GIN is the only Preferred row |
| `Stocks.FaultError` | src/stocks_data.py:71-87 | a type error from the table library becomes the invalid-type error, and any other failure becomes the generic error naming the stock |
| `Stocks.StocksData.constructor` | src/stocks_data.py:17 | before anything asks for the store, no instance exists |
| `Stocks.StocksData.New` | src/stocks_data.py:18-26 | the first call assigns the seed table and an empty log; every later call returns the same instance and leaves both tables unchanged, however populated the log is |
| `Stocks.StocksData.InitializeData` | src/stocks_data.py:28-47 | the dividend table becomes the seed table and the trade log becomes empty |
| `Stocks.StocksData.Append` | src/stocks_data.py:68-70 | the log becomes the old log followed by exactly one new record |
| `Stocks.StocksData.RecordTrade` | src/stocks_data.py:49-87 | on success the record is appended unmodified after all earlier records; on failure it raises an error of the matching kind and the log is unchanged; the dividend table is never touched, and no field is validated |
| `Stocks.StocksData.RecordTradeReporting` | src/super_simple_stock_market.py:51-81 | the same append, but a failure is returned as an error message rather than raised, and the log is unchanged |
| `Stocks.StocksData.SnapshotUnique` | src/stocks_data.py:34-40 | once the store exists, the dividend table the calculators read has five rows and no symbol twice |
| `Stocks.RecordTwoTrades` | tests/unit/test_stock_data.py:10-20 | on a fresh store, recording TSLA and then GOOG gives a log of exactly those two records in that order, although neither symbol is in the dividend table |
| `Stocks.ConstructTwice` | tests/unit/test_stock_data.py:4-8 | asking for the store twice yields the same instance, and the second request keeps a trade recorded in between |
| `Market.CheckStock` | src/super_simple_stock_market.py:90-101 | true exactly when some row of the chosen table has that symbol; the name "stock_dividend_data" chooses the dividend table and any other name chooses the trade log |
| `Market.RowsFor` | src/super_simple_stock_market.py:125 | the selected rows are exactly the table's rows with that symbol, and the selection is empty exactly when no row has it |
| `Market.DivideCell` | src/super_simple_stock_market.py:130 | a missing (NaN) dividend divided by the price is NaN; a present one gives its quotient for a non-zero price |
| `Market.DividendYield` | src/super_simple_stock_market.py:119-135 | the result is not-found exactly when the symbol is absent from the dividend table; a finite yield has at most two decimals |
| `Market.PeRatio` | src/super_simple_stock_market.py:149-158 | the result is not-found exactly when the symbol is absent from the dividend table; a finite P/E has at most two decimals |
| `Market.Window` | src/super_simple_stock_market.py:181-183 | a trade is selected exactly when it is in the log, has the symbol, and is stamped at or after the window start; the window never holds more trades than the log |
| `Market.WindowStart` | src/super_simple_stock_market.py:179 | the window starts a whole number of minutes before now, never after now for a non-negative length, and at now exactly for a zero length |
| `Market.Vwap` | src/super_simple_stock_market.py:174-191 | not-found exactly when the symbol never traded; otherwise NaN exactly when the window's total quantity is not positive, never infinite, and a finite price has at most two decimals |
| `Market.LastPrices` | src/super_simple_stock_market.py:206-208 | the selection has exactly one entry per distinct symbol of the log |
| `Market.GeometricMeanInput` | src/super_simple_stock_market.py:206-210 | there is no input (the NaN result) exactly when the log is empty; otherwise the input covers every traded symbol |
| `Market.GeometricMean` | src/super_simple_stock_market.py:204-210 | an empty log gives NaN; otherwise the result is finite exactly when the mean of the last prices is, is then within 0.005 of it and has at most two decimals, and is that mean unchanged when it is NaN or infinite |
| `MarketProperties.RowsForUnique` | src/super_simple_stock_market.py:125 | in a table with unique symbols, a row's symbol selects exactly that one row |
| `MarketProperties.CommonYieldWithinRounding` | src/super_simple_stock_market.py:129-130 | for a Common stock and a non-zero price, the yield is finite, within 0.005 of last dividend / price, and a whole number of hundredths |
| `MarketProperties.PreferredYieldWithinRounding` | src/super_simple_stock_market.py:131-133 | for a Preferred stock and a non-zero price, the yield is NaN when the fixed dividend is missing; otherwise it is finite, within 0.005 of fixed dividend × par value / price, and a whole number of hundredths |
| `MarketProperties.PeRatioWithinRounding` | src/super_simple_stock_market.py:155-157 | for a non-zero last dividend, P/E is finite, within 0.005 of price / last dividend, and a whole number of hundredths |
| `MarketProperties.PeRatioNaNOnlyWhenMissing` | src/super_simple_stock_market.py:156-157 | for a non-zero price, P/E is NaN exactly when a matching row has no last dividend |
| `MarketProperties.PeRatioZeroDividendIsInfinite` | src/super_simple_stock_market.py:156-157 | a zero last dividend is not guarded: at a positive price, P/E is +infinity |
| `MarketProperties.SeedRowsFor` | src/stocks_data.py:34-40 | each seeded symbol selects exactly its own seed row |
| `MarketProperties.SeedYieldPop` | tests/unit/test_super_simple_stock_market.py:5-6 | POP at 200 yields 0.04 |
| `MarketProperties.SeedYieldGin` | tests/unit/test_super_simple_stock_market.py:8-9 | GIN at 100 yields 0.02 |
| `MarketProperties.SeedYieldAle` | src/super_simple_stock_market.py:129-130 | ALE at 60 yields 0.38: the ratio 23 / 60 = 0.383… is rounded to hundredths |
| `MarketProperties.SeedUnknownSymbol` | tests/unit/test_super_simple_stock_market.py:11-12 | AAPL is not found, by both the yield and the P/E calculation |
| `MarketProperties.SeedPeRatioPop` | src/super_simple_stock_market.py:155-157 | POP at 200 has a P/E of 25 |
| `MarketProperties.SeedPeRatioGin` | src/super_simple_stock_market.py:155-157 | GIN at 100 has a P/E of 12.5 |
| `MarketProperties.SeedPeRatioJoe` | src/super_simple_stock_market.py:155-157 | JOE at 250 has a P/E of 20.83: the ratio 250 / 12 = 20.833… is rounded to hundredths |
| `MarketProperties.SeedPeRatioTea` | src/super_simple_stock_market.py:155-157 | TEA, whose last dividend is 0, has an infinite P/E |
| `MarketProperties.SeedMetricsDefined` | src/stocks_data.py:34-40 | at a positive price, every seeded symbol has a finite yield and a found P/E, which is finite for every symbol except TEA |
| `VwapProperties.WeightedSumBounds` | src/super_simple_stock_market.py:185-188 | with non-negative quantities and prices in [lo, hi], Σ(price × quantity) lies between lo × Σ quantity and hi × Σ quantity |
| `VwapProperties.WeightedMeanBounds` | src/super_simple_stock_market.py:190 | with a positive total quantity, the weighted mean lies in [lo, hi] |
| `VwapProperties.VwapWithinPriceRange` | src/super_simple_stock_market.py:181-191 | when the window's trades have non-negative quantities and prices in [lo, hi], a finite volume-weighted price lies in [lo, hi] up to rounding |
| `VwapProperties.VwapAllTradesStale` | src/super_simple_stock_market.py:176-191 | a symbol whose trades all precede the window gets NaN, not not-found |
| `VwapProperties.VwapIgnoresTradeOutsideWindow` | src/super_simple_stock_market.py:181-183 | appending a trade of another symbol, or a stale trade of a symbol that already traded, leaves the volume-weighted price unchanged |
| `VwapProperties.WindowMultiplicity` | src/super_simple_stock_market.py:181-183 | the window holds every trade of the symbol stamped at or after the start exactly as often as the log holds it, and no other trade |
| `VwapProperties.WindowWidens` | src/super_simple_stock_market.py:179-183 | a longer window ending at the same time holds every trade a shorter one holds |
| `VwapProperties.TotalsConcat` | src/super_simple_stock_market.py:185-188 | `TotalQuantity` and `TotalPriceVolume` (the two column sums) of a concatenation are the sums of its parts |
| `VwapProperties.TotalsInsert` | src/super_simple_stock_market.py:185-188 | a trade placed between two runs of trades adds its quantity and its price × quantity to the two sums |
| `VwapProperties.TotalsRemove` | src/super_simple_stock_market.py:185-188 | taking one trade out of a sequence takes its quantity and its price × quantity out of the two sums |
| `VwapProperties.MultisetRemove` | src/super_simple_stock_market.py:181-183 | taking one trade out of a sequence takes exactly one copy of it out of the sequence's multiset |
| `VwapProperties.PermutationStep` | src/super_simple_stock_market.py:185-188 | two listings of the same trades remain listings of the same trades after one equal trade is taken out of each |
| `VwapProperties.TotalsPermutation` | src/super_simple_stock_market.py:185-188 | `TotalQuantity` and `TotalPriceVolume` depend only on which trades occur how often, not on their order |
| `VwapProperties.VwapIsWeightedMean` | src/super_simple_stock_market.py:185-191 | when the window's total quantity is positive, the result is found, finite, within 0.005 of Σ(price × quantity) / Σ quantity over the window, and a whole number of hundredths |
| `VwapProperties.WindowIsMatching` | src/super_simple_stock_market.py:181-183 | any listing of exactly the matching trades, with their multiplicities, is the window up to order |
| `VwapProperties.VwapOverMatchingTrades` | src/super_simple_stock_market.py:181-191 | for any listing w of exactly the symbol's trades inside the window, each as often as the log holds it, a positive Σ quantity over w gives a found, finite result within 0.005 of Σ(price × quantity) / Σ quantity over w, which is a whole number of hundredths |
| `MarketProperties.LastPriceIsLastInserted` | src/super_simple_stock_market.py:206-208 | a symbol's selected price is that of its last-inserted trade, in log order and whatever the timestamps |
| `MarketProperties.LastPriceAfterRecord` | src/super_simple_stock_market.py:206-208 | after a trade is appended, the selection has its price for its symbol |

## Left out

- The file logger (`src/utils/logger.py`) and the `error_logger.log` calls are file I/O. They are treated as no-ops.
- The wall clock (`pd.Timestamp.now()`) is the `now` parameter. Timestamps are integer seconds on one clock. The mismatch between naive and offset-aware timestamps is not modelled.
- `scipy.stats.gmean` (an n-th root) is not modelled. `GeometricMean` takes the mean as a function parameter from the symbol-to-last-price map to a float. The key order of pandas `groupby` is abstracted away by the map, and the mean does not depend on order.
- Binary floating point is not modelled. Finite values are exact reals, and `np.round` is exact half-to-even rounding of those reals.
- pandas internals are not modelled: the `dropna` of all-NaN columns before the concat, dtype coercion, and `last()` skipping null prices (prices are always present in the model).
- The calculators' `TypeError` and generic-exception handlers are not modelled. They return messages for a price or a window length that is not numeric, which Dafny's static types rule out. A symbol that is not a string does not reach them: the membership check and the row selection compare its text form (`f'{stock}'`), so it is reported as not found, or, when its text form has traded, the volume-weighted price's `== stock` filter matches nothing and gives NaN. The model's symbols are strings, for which the text form is the symbol itself. Well-typed inputs reach them too: the volume-weighted price's out-of-range window and its naive/offset-aware timestamp comparison (both listed in this section). The model has no message paths for those cases.
- Vwap: it does not model pandas' 64-bit integers, for two reasons.
  - Times are int64 nanoseconds, about ±292 years around 1970. A window whose start `now - timedelta(minutes=minutes)` leaves that range raises, and the generic handler returns its error message. The model instead returns `Ok`: the mean over the symbol's trades in the unbounded window, or NaN.
  - The quantity column's `sum()` is an int64 and wraps past 2^63 − 1. For example, two trades of quantity 2^62 sum to −2^63, and the source returns NaN. The model's `TotalQuantity` is an unbounded integer (2^63 here), so the model returns a finite price.
- Every calculator begins with `StocksData()`, which may initialize the store. The model's calculators take the tables of a store that has already been obtained (`StocksData.New`).
- The `__main__` block and the accessor `get_stocks` are not modelled.
- The duplicated `StocksData` class of the calculator module is one store in the model. Only its `record_trade` is kept separately (`RecordTradeReporting`), for its error-returning discipline.
- GeometricMean: for a non-empty log, it promises only that the mean's own result is rounded, with NaN and the infinities passed through. The mean's result on non-positive prices (0.0 when a last price is zero, NaN with a warning when one is negative) belongs to the mean parameter, which is not modelled.
