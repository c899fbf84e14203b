/**
 * Properties of the calculator: what the dividend yield and the P/E ratio
 * mean relative to the exact ratio each rounds, the seeded examples, and
 * which price the geometric mean sees for each symbol.
 */
module MarketProperties {
  import opened Numerics
  import opened Stocks
  import opened Market

  /** In a table with unique symbols, looking up a row's symbol finds exactly that row. */
  lemma {:induction false} RowsForUnique(table: seq<StockDefinition>, i: int)
    requires UniqueSymbols(table) && 0 <= i < |table|
    ensures RowsFor(table, table[i].symbol) == [table[i]]
  {
    var init, last := table[..|table| - 1], table[|table| - 1];
    if i < |table| - 1 {
      RowsForUnique(init, i);
      assert init[i] == table[i];
      assert last.symbol != table[i].symbol;
    } else {
      assert table == init + [last];
      assert RowsFor(table, last.symbol) == RowsFor(init, last.symbol) + [last];
    }
  }

  /**
   * Common stock: the yield is finite and within rounding of the last
   * dividend over the price.
   */
  lemma CommonYieldWithinRounding(data: Tables, i: int, price: real)
    requires UniqueSymbols(data.dividendData) && 0 <= i < |data.dividendData|
    requires data.dividendData[i].kind == Common && data.dividendData[i].lastDividend.Some?
    requires price != 0.0
    ensures var y := DividendYield(data, data.dividendData[i].symbol, price);
      y.Ok? && y.value.Finite? &&
      -0.005 <= y.value.value - data.dividendData[i].lastDividend.value / price <= 0.005 &&
      Hundredths(y.value.value)
  {
    RowsForUnique(data.dividendData, i);
  }

  /**
   * Preferred stock: NaN when the fixed dividend is missing; otherwise finite
   * and within rounding of the fixed dividend times the par value over the price.
   */
  lemma PreferredYieldWithinRounding(data: Tables, i: int, price: real)
    requires UniqueSymbols(data.dividendData) && 0 <= i < |data.dividendData|
    requires data.dividendData[i].kind == Preferred
    requires price != 0.0
    ensures var row, y := data.dividendData[i], DividendYield(data, data.dividendData[i].symbol, price);
      && (row.fixedDividend.None? ==> y == Ok(NaN))
      && (row.fixedDividend.Some? ==>
            y.Ok? && y.value.Finite? &&
            -0.005 <= y.value.value - FixedDividendAmount(row) / price <= 0.005 &&
            Hundredths(y.value.value))
  {
    var row := data.dividendData[i];
    RowsForUnique(data.dividendData, i);
    if row.fixedDividend.Some? {
      var a := FixedDividendAmount(row);
      assert Divide(a, price).value == a / price;
    }
  }

  /** P/E: finite and within rounding of the price over a non-zero last dividend. */
  lemma PeRatioWithinRounding(data: Tables, i: int, price: real)
    requires UniqueSymbols(data.dividendData) && 0 <= i < |data.dividendData|
    requires data.dividendData[i].lastDividend.Some? && data.dividendData[i].lastDividend.value != 0.0
    ensures var pe := PeRatio(data, data.dividendData[i].symbol, price);
      pe.Ok? && pe.value.Finite? &&
      -0.005 <= pe.value.value - price / data.dividendData[i].lastDividend.value <= 0.005 &&
      Hundredths(pe.value.value)
  {
    RowsForUnique(data.dividendData, i);
  }

  /**
   * For a non-zero price, P/E is NaN exactly when a matching row has no last
   * dividend; a zero last dividend does not give NaN.
   */
  lemma PeRatioNaNOnlyWhenMissing(data: Tables, stock: string, price: real)
    requires HasRow(data.dividendData, stock) && price != 0.0
    ensures PeRatio(data, stock, price) == Ok(NaN) <==>
      AnyLastDividendMissing(RowsFor(data.dividendData, stock))
  {
  }

  /** A zero last dividend gives an infinite P/E for a positive price. */
  lemma PeRatioZeroDividendIsInfinite(data: Tables, i: int, price: real)
    requires UniqueSymbols(data.dividendData) && 0 <= i < |data.dividendData|
    requires data.dividendData[i].lastDividend == Some(0.0)
    requires price > 0.0
    ensures PeRatio(data, data.dividendData[i].symbol, price) == Ok(Infinity(false))
  {
    RowsForUnique(data.dividendData, i);
  }

  /** Each seeded symbol selects exactly its own row of the seed table. */
  lemma SeedRowsFor(i: int)
    requires 0 <= i < |SeedTable()|
    ensures RowsFor(SeedTable(), SeedTable()[i].symbol) == [SeedTable()[i]]
  {
    SeedTableInvariants();
    RowsForUnique(SeedTable(), i);
  }

  /** POP at a price of 200 yields 0.04. */
  lemma SeedYieldPop(log: seq<Trade>)
    ensures DividendYield(Tables(SeedTable(), log), "POP", 200.0) == Ok(Finite(0.04))
  {
    SeedRowsFor(1);
    assert HasRow(SeedTable(), SeedTable()[1].symbol);
    Round2Exact(4);
    assert Divide(8.0, 200.0) == Finite(4 as real / 100.0);
  }

  /** GIN, the Preferred stock, at a price of 100 yields 0.02. */
  lemma SeedYieldGin(log: seq<Trade>)
    ensures DividendYield(Tables(SeedTable(), log), "GIN", 100.0) == Ok(Finite(0.02))
  {
    SeedRowsFor(3);
    assert HasRow(SeedTable(), SeedTable()[3].symbol);
    Round2Exact(2);
    assert FixedDividendAmount(SeedTable()[3]) == 2.0;
    assert Divide(2.0, 100.0) == Finite(2 as real / 100.0);
  }

  /** POP at a price of 200 has a P/E of 25. */
  lemma SeedPeRatioPop(log: seq<Trade>)
    ensures PeRatio(Tables(SeedTable(), log), "POP", 200.0) == Ok(Finite(25.0))
  {
    SeedRowsFor(1);
    assert HasRow(SeedTable(), SeedTable()[1].symbol);
    Round2Exact(2500);
    assert Divide(200.0, 8.0) == Finite(2500 as real / 100.0);
  }

  /** GIN at a price of 100 has a P/E of 12.5. */
  lemma SeedPeRatioGin(log: seq<Trade>)
    ensures PeRatio(Tables(SeedTable(), log), "GIN", 100.0) == Ok(Finite(12.5))
  {
    SeedRowsFor(3);
    assert HasRow(SeedTable(), SeedTable()[3].symbol);
    Round2Exact(1250);
    assert Divide(100.0, 8.0) == Finite(1250 as real / 100.0);
  }

  /** ALE at a price of 60 yields 0.38: 23 / 60 = 0.3833… is rounded to hundredths. */
  lemma SeedYieldAle(log: seq<Trade>)
    ensures DividendYield(Tables(SeedTable(), log), "ALE", 60.0) == Ok(Finite(0.38))
  {
    SeedRowsFor(2);
    assert HasRow(SeedTable(), SeedTable()[2].symbol);
    assert Divide(23.0, 60.0) == Finite(23.0 / 60.0);
    assert RoundHalfEven(23.0 / 60.0 * 100.0) == 38;
  }

  /** JOE at a price of 250 has a P/E of 20.83: 250 / 12 = 20.8333… is rounded to hundredths. */
  lemma SeedPeRatioJoe(log: seq<Trade>)
    ensures PeRatio(Tables(SeedTable(), log), "JOE", 250.0) == Ok(Finite(20.83))
  {
    SeedRowsFor(4);
    assert HasRow(SeedTable(), SeedTable()[4].symbol);
    assert Divide(250.0, 12.0) == Finite(250.0 / 12.0);
    assert RoundHalfEven(250.0 / 12.0 * 100.0) == 2083;
  }

  /** TEA, whose last dividend is 0, has an infinite P/E at a price of 100. */
  lemma SeedPeRatioTea(log: seq<Trade>)
    ensures PeRatio(Tables(SeedTable(), log), "TEA", 100.0) == Ok(Infinity(false))
  {
    SeedRowsFor(0);
    assert HasRow(SeedTable(), SeedTable()[0].symbol);
    assert SeedTable()[0].lastDividend.value == 0.0;
    assert RoundFloat(Divide(100.0, 0.0)) == Infinity(false);
  }

  /** AAPL is not in the dividend table: both dividend metrics report it as not found. */
  lemma SeedUnknownSymbol(log: seq<Trade>, price: real)
    ensures DividendYield(Tables(SeedTable(), log), "AAPL", price) == Err(NotFound("AAPL", DividendData))
    ensures PeRatio(Tables(SeedTable(), log), "AAPL", price) == Err(NotFound("AAPL", DividendData))
  {
    assert !HasRow(SeedTable(), "AAPL");
  }

  /**
   * Every seeded symbol has a finite dividend yield at a positive price, and
   * a P/E that is found (finite for all but TEA).
   */
  lemma SeedMetricsDefined(log: seq<Trade>, i: int, price: real)
    requires 0 <= i < |SeedTable()| && price > 0.0
    ensures DividendYield(Tables(SeedTable(), log), SeedTable()[i].symbol, price).Ok?
    ensures DividendYield(Tables(SeedTable(), log), SeedTable()[i].symbol, price).value.Finite?
    ensures PeRatio(Tables(SeedTable(), log), SeedTable()[i].symbol, price).Ok?
    ensures SeedTable()[i].symbol != "TEA" ==>
      PeRatio(Tables(SeedTable(), log), SeedTable()[i].symbol, price).value.Finite?
  {
    var data := Tables(SeedTable(), log);
    SeedTableInvariants();
    assert UniqueSymbols(data.dividendData);
    if SeedTable()[i].kind == Common {
      CommonYieldWithinRounding(data, i, price);
    } else {
      PreferredYieldWithinRounding(data, i, price);
    }
    if SeedTable()[i].symbol != "TEA" {
      PeRatioWithinRounding(data, i, price);
    }
  }

  /**
   * The geometric mean sees, for a symbol, the price of its last-inserted
   * trade: the trade at index i when no later trade has the same symbol,
   * whatever the timestamps.
   */
  lemma {:induction false} LastPriceIsLastInserted(log: seq<Trade>, i: int)
    requires 0 <= i < |log|
    requires forall j :: i < j < |log| ==> log[j].symbol != log[i].symbol
    ensures log[i].symbol in LastPrices(log) && LastPrices(log)[log[i].symbol] == log[i].price
  {
    if i < |log| - 1 {
      var init := log[..|log| - 1];
      LastPriceIsLastInserted(init, i);
      assert init[i] == log[i];
    }
  }

  /** After recording a trade, the geometric mean sees its price for its symbol. */
  lemma LastPriceAfterRecord(log: seq<Trade>, t: Trade)
    ensures LastPrices(log + [t])[t.symbol] == t.price
    ensures |LastPrices(log + [t])| >= 1
  {
    LastPriceIsLastInserted(log + [t], |log|);
  }
}
