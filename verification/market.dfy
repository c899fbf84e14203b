/**
 * The calculator: dividend yield, P/E ratio, volume-weighted price and the
 * geometric-mean input, each a pure read of the store's tables. A lookup of
 * an unknown symbol is an `Err`; an undefined result is the `NaN` value.
 */
module Market {
  import opened Numerics
  import opened Stocks

  datatype Result<T> = Ok(value: T) | Err(error: Error)

  /** The `stock` column of a table whose rows carry their symbol at `symbol`. */
  function SymbolColumn<R>(rows: seq<R>, symbol: R -> string): (column: seq<string>)
    ensures |column| == |rows| && forall i :: 0 <= i < |rows| ==> column[i] == symbol(rows[i])
  {
    seq(|rows|, i requires 0 <= i < |rows| => symbol(rows[i]))
  }

  /**
   * `_check_stock`: whether some row of the chosen table has exactly that
   * symbol. The dividend table is chosen by the name "stock_dividend_data";
   * any other name chooses the trade log.
   */
  function CheckStock(data: Tables, stock: string, dataset: string): (found: bool)
    ensures dataset == "stock_dividend_data" ==> (found <==> HasRow(data.dividendData, stock))
    ensures dataset != "stock_dividend_data" ==> (found <==> HasTrade(data.transactions, stock))
  {
    if dataset == "stock_dividend_data" then stock in SymbolColumn(data.dividendData, (row: StockDefinition) => row.symbol)
    else stock in SymbolColumn(data.transactions, (t: Trade) => t.symbol)
  }

  /** The rows of the dividend table whose symbol is `stock`, in table order. */
  function RowsFor(table: seq<StockDefinition>, stock: string): (rows: seq<StockDefinition>)
    ensures forall row :: row in rows <==> row in table && row.symbol == stock
    ensures rows == [] <==> !HasRow(table, stock)
    ensures |rows| <= |table|
  {
    if table == [] then []
    else
      var last := table[|table| - 1];
      RowsFor(table[..|table| - 1], stock) + (if last.symbol == stock then [last] else [])
  }

  /** Some row is of the Common type (`(type == 'Common').any()`). */
  predicate AnyCommon(rows: seq<StockDefinition>)
  {
    exists i :: 0 <= i < |rows| && rows[i].kind == Common
  }

  /** Some row has no fixed dividend (`isnan(fixed_dividend).any()`). */
  predicate AnyFixedDividendMissing(rows: seq<StockDefinition>)
  {
    exists i :: 0 <= i < |rows| && rows[i].fixedDividend.None?
  }

  /** Some row has no last dividend (`isnan(last_dividend).any()`). */
  predicate AnyLastDividendMissing(rows: seq<StockDefinition>)
  {
    exists i :: 0 <= i < |rows| && rows[i].lastDividend.None?
  }

  /** The dividend a Preferred row pays: its fixed dividend rate times its par value. */
  function FixedDividendAmount(row: StockDefinition): real
    requires row.fixedDividend.Some?
  {
    row.fixedDividend.value * row.parValue
  }

  /** A cell divided by the price; a missing (NaN) cell gives NaN whatever the price. */
  function DivideCell(cell: Option<real>, price: real): (r: Float)
    ensures cell.None? ==> r.NaN?
    ensures cell.Some? && price != 0.0 ==> r == Finite(cell.value / price)
  {
    match cell
    case None => NaN
    case Some(v) => Divide(v, price)
  }

  /**
   * `calculate_dividend_yield`: not found for a symbol absent from the
   * dividend table; for a Common stock the last dividend over the price; for
   * a Preferred stock the fixed dividend times the par value over the price,
   * or NaN when a fixed dividend is missing; rounded to two decimals. When
   * several rows match, the first one supplies the figures.
   */
  function DividendYield(data: Tables, stock: string, price: real): (r: Result<Float>)
    ensures r.Err? <==> !HasRow(data.dividendData, stock)
    ensures r.Err? ==> r.error == NotFound(stock, DividendData)
    ensures r.Ok? && r.value.Finite? ==> Hundredths(r.value.value)
  {
    if !CheckStock(data, stock, "stock_dividend_data") then Err(NotFound(stock, DividendData))
    else
      var info := RowsFor(data.dividendData, stock);
      if AnyCommon(info) then
        Ok(RoundFloat(DivideCell(info[0].lastDividend, price)))
      else if AnyFixedDividendMissing(info) then
        Ok(NaN)
      else
        Ok(RoundFloat(Divide(FixedDividendAmount(info[0]), price)))
  }

  /**
   * `calculate_pe_ratio`: not found for a symbol absent from the dividend
   * table; NaN when a last dividend is missing; otherwise the price over the
   * last dividend, rounded to two decimals. A zero last dividend is not
   * guarded: it gives an infinity (or NaN for a zero price).
   */
  function PeRatio(data: Tables, stock: string, price: real): (r: Result<Float>)
    ensures r.Err? <==> !HasRow(data.dividendData, stock)
    ensures r.Err? ==> r.error == NotFound(stock, DividendData)
    ensures r.Ok? && r.value.Finite? ==> Hundredths(r.value.value)
  {
    if !CheckStock(data, stock, "stock_dividend_data") then Err(NotFound(stock, DividendData))
    else
      var info := RowsFor(data.dividendData, stock);
      if AnyLastDividendMissing(info) then Ok(NaN)
      else
        Ok(RoundFloat(Divide(price, info[0].lastDividend.value)))
  }

  /** The trades of `stock` stamped at or after `since`, in log order. */
  function Window(log: seq<Trade>, stock: string, since: int): (w: seq<Trade>)
    ensures forall t :: t in w <==> t in log && t.symbol == stock && t.timestamp >= since
    ensures |w| <= |log|
  {
    if log == [] then []
    else
      var last := log[|log| - 1];
      Window(log[..|log| - 1], stock, since)
        + (if last.symbol == stock && last.timestamp >= since then [last] else [])
  }

  /** Σ quantity. */
  function TotalQuantity(w: seq<Trade>): int
  {
    if w == [] then 0 else TotalQuantity(w[..|w| - 1]) + w[|w| - 1].quantity
  }

  /** The `price_volume` of one trade: its price times its quantity. */
  function PriceVolume(t: Trade): real
  {
    t.price * t.quantity as real
  }

  /** Σ price × quantity. */
  function TotalPriceVolume(w: seq<Trade>): real
  {
    if w == [] then 0.0
    else TotalPriceVolume(w[..|w| - 1]) + PriceVolume(w[|w| - 1])
  }

  /** Start of the window of `minutes` minutes that ends at `now`. */
  function WindowStart(now: int, minutes: int): (start: int)
    ensures minutes >= 0 ==> start <= now
    ensures start == now <==> minutes == 0
    ensures (now - start) % 60 == 0
  {
    now - minutes * 60
  }

  /**
   * `calculate_volume_weighted_stock_price`: not found only when the symbol
   * never traded; otherwise, over the symbol's trades inside the window,
   * Σ(price × quantity) / Σ quantity rounded to two decimals when
   * Σ quantity > 0, and NaN otherwise (also when no trade is in the window).
   * `now` stands for the wall clock; the source's default window length is
   * 15 minutes, which a caller passes here as `minutes`.
   */
  function Vwap(data: Tables, stock: string, minutes: int, now: int): (r: Result<Float>)
    ensures r.Err? <==> !HasTrade(data.transactions, stock)
    ensures r.Err? ==> r.error == NotFound(stock, Transactions)
    ensures r.Ok? ==>
      (r.value.NaN? <==> TotalQuantity(Window(data.transactions, stock, WindowStart(now, minutes))) <= 0)
    ensures r.Ok? ==> !r.value.Infinity?
    ensures r.Ok? && r.value.Finite? ==> Hundredths(r.value.value)
  {
    if !CheckStock(data, stock, "transactions") then Err(NotFound(stock, Transactions))
    else
      var window := Window(data.transactions, stock, WindowStart(now, minutes));
      var totalQuantity := TotalQuantity(window);
      if totalQuantity > 0 then Ok(Finite(Round2(TotalPriceVolume(window) / totalQuantity as real)))
      else Ok(NaN)
  }

  /** The set of symbols that occur in the log. */
  function SymbolsOf(log: seq<Trade>): set<string>
  {
    set t | t in log :: t.symbol
  }

  /**
   * For each symbol in the log, the price of its last-inserted trade (log
   * order, not timestamp order): one entry per distinct symbol.
   */
  function LastPrices(log: seq<Trade>): (last: map<string, real>)
    ensures last.Keys == SymbolsOf(log)
  {
    if log == [] then map[]
    else
      var init, t := log[..|log| - 1], log[|log| - 1];
      assert log == init + [t];
      LastPrices(init)[t.symbol := t.price]
  }

  /**
   * The selection step of `calculate_geometric_mean`: the last prices, or
   * `None` (the NaN result) when there are none.
   */
  function GeometricMeanInput(data: Tables): (r: Option<map<string, real>>)
    ensures r.None? <==> data.transactions == []
    ensures r.Some? ==> r.value.Keys == SymbolsOf(data.transactions)
  {
    var last := LastPrices(data.transactions);
    if |last| > 0 then Some(last) else None
  }

  /**
   * `calculate_geometric_mean`, with the mean itself supplied as `gmean`
   * (which may itself be NaN or infinite): NaN for an empty log, otherwise
   * the mean of the last prices rounded to two decimals.
   */
  function GeometricMean(data: Tables, gmean: map<string, real> -> Float): (r: Float)
    ensures data.transactions == [] ==> r.NaN?
    ensures data.transactions != [] ==>
      (r.Finite? <==> gmean(LastPrices(data.transactions)).Finite?)
    ensures data.transactions != [] && r.Finite? ==>
      -0.005 <= r.value - gmean(LastPrices(data.transactions)).value <= 0.005
    ensures data.transactions != [] && !r.Finite? ==> r == gmean(LastPrices(data.transactions))
    ensures r.Finite? ==> Hundredths(r.value)
  {
    match GeometricMeanInput(data)
    case None => NaN
    case Some(last) => RoundFloat(gmean(last))
  }
}
