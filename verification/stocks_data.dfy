/**
 * The reference store: the fixed five-row dividend table and the append-only
 * trade log, held by a get-or-create singleton whose only mutation is
 * recording a trade.
 */
module Stocks {

  datatype Option<T> = None | Some(value: T)

  datatype StockType = Common | Preferred

  /** One row of the dividend table; a missing (NaN) cell is `None`. */
  datatype StockDefinition = StockDefinition(
    symbol: string,
    kind: StockType,
    lastDividend: Option<real>,
    fixedDividend: Option<real>,
    parValue: real)

  /**
   * One row of the trade log. Timestamps are seconds on one clock; nothing is
   * validated: any quantity sign, indicator text or symbol is stored as given.
   */
  datatype Trade = Trade(
    timestamp: int,
    symbol: string,
    quantity: int,
    indicator: string,
    price: real)

  /** The two tables of the store, as the calculators read them. */
  datatype Tables = Tables(dividendData: seq<StockDefinition>, transactions: seq<Trade>)

  /** Which table a symbol was looked up in. */
  datatype Dataset = DividendData | Transactions

  /** The error kinds the store and the calculators report. */
  datatype Error = NotFound(symbol: string, dataset: Dataset) | InvalidType | Other(symbol: string)

  /** What the table library raised while building or concatenating the new record. */
  datatype Fault = TypeFault | OtherFault

  /** How a raising operation ended: it returned, or it raised an exception of the given kind. */
  datatype Outcome = Returned | Raised(error: Error)

  /** The dividend table the store is seeded with. */
  function SeedTable(): seq<StockDefinition>
  {
    [ StockDefinition("TEA", Common, Some(0.0), None, 100.0),
      StockDefinition("POP", Common, Some(8.0), None, 100.0),
      StockDefinition("ALE", Common, Some(23.0), None, 60.0),
      StockDefinition("GIN", Preferred, Some(8.0), Some(0.02), 100.0),
      StockDefinition("JOE", Common, Some(12.0), None, 250.0) ]
  }

  predicate HasRow(table: seq<StockDefinition>, symbol: string)
  {
    exists i :: 0 <= i < |table| && table[i].symbol == symbol
  }

  predicate HasTrade(log: seq<Trade>, symbol: string)
  {
    exists i :: 0 <= i < |log| && log[i].symbol == symbol
  }

  /** No symbol occurs in two rows. */
  predicate UniqueSymbols(table: seq<StockDefinition>)
  {
    forall i, j :: 0 <= i < j < |table| ==> table[i].symbol != table[j].symbol
  }

  /**
   * The seed table has five rows with distinct symbols, every row has a last
   * dividend and a positive par value, a fixed dividend is present exactly on
   * Preferred rows, and GIN is the only Preferred row.
   */
  lemma SeedTableInvariants()
    ensures |SeedTable()| == 5
    ensures UniqueSymbols(SeedTable())
    ensures forall i :: 0 <= i < 5 ==>
      SeedTable()[i].lastDividend.Some? && SeedTable()[i].lastDividend.value >= 0.0 && SeedTable()[i].parValue > 0.0
    ensures forall i :: 0 <= i < 5 ==>
      (SeedTable()[i].fixedDividend.Some? <==> SeedTable()[i].kind == Preferred)
    ensures forall i :: 0 <= i < 5 ==>
      (SeedTable()[i].kind == Preferred <==> SeedTable()[i].symbol == "GIN")
  {
  }

  /** The error a failed record reports, given what the table library raised. */
  function FaultError(fault: Fault, stock: string): (e: Error)
    ensures e.InvalidType? <==> fault == TypeFault
    ensures e.Other? ==> e.symbol == stock
    ensures !e.NotFound?
  {
    match fault
    case TypeFault => InvalidType
    case OtherFault => Other(stock)
  }

  /**
   * The store. One object stands for the class and its single instance: the
   * tables are class-level attributes, and `initialized` records whether the
   * instance has been created (and the tables assigned) yet.
   */
  class StocksData {
    var initialized: bool
    var dividendData: seq<StockDefinition>
    var transactions: seq<Trade>

    /** Once initialized, the dividend table is the seed table, and no operation changes it. */
    ghost predicate Valid()
      reads this
    {
      initialized ==> dividendData == SeedTable()
    }

    /** The tables as the calculators see them. */
    function Snapshot(): (t: Tables)
      reads this
      ensures t.dividendData == dividendData && t.transactions == transactions
    {
      Tables(dividendData, transactions)
    }

    /**
     * Once the store exists, the dividend table the calculators read has no
     * symbol twice, so a symbol lookup selects at most one row.
     */
    lemma SnapshotUnique()
      requires Valid() && initialized
      ensures UniqueSymbols(Snapshot().dividendData)
      ensures |Snapshot().dividendData| == 5
    {
      SeedTableInvariants();
    }

    /** The class before anything has asked for an instance. */
    constructor ()
      ensures Valid() && !initialized
    {
      initialized := false;
      dividendData := [];
      transactions := [];
    }

    /**
     * `StocksData()`: the first call creates the instance and initializes the
     * tables; every later call returns the same instance and leaves both
     * tables, including a populated trade log, as they are.
     */
    method New() returns (instance: StocksData)
      requires Valid()
      modifies this
      ensures Valid() && initialized && instance == this
      ensures old(initialized) ==> dividendData == old(dividendData) && transactions == old(transactions)
      ensures !old(initialized) ==> dividendData == SeedTable() && transactions == []
    {
      if !initialized {
        initialized := true;
        InitializeData();
      }
      instance := this;
    }

    /** Assigns the seed dividend table and an empty trade log. */
    method InitializeData()
      modifies this`dividendData, this`transactions
      ensures dividendData == SeedTable() && transactions == []
    {
      dividendData := SeedTable();
      transactions := [];
    }

    /** Replaces the trade log by a copy with one more record at the end. */
    method Append(t: Trade)
      modifies this`transactions
      ensures transactions == old(transactions) + [t]
    {
      transactions := transactions + [t];
    }

    /**
     * `record_trade` of the store module: appends the record, or raises
     * (a type error, or a generic exception naming the stock) and leaves the
     * log as it was. `fault` is what the table library raised, if anything.
     */
    method RecordTrade(timestamp: int, stock: string, quantity: int, indicator: string, price: real,
                       fault: Option<Fault>) returns (outcome: Outcome)
      requires Valid() && initialized
      modifies this`transactions
      ensures Valid()
      ensures outcome.Returned? <==> fault.None?
      ensures fault.None? ==>
        transactions == old(transactions) + [Trade(timestamp, stock, quantity, indicator, price)]
      ensures fault.Some? ==>
        transactions == old(transactions) && outcome == Raised(FaultError(fault.value, stock))
    {
      if fault.None? {
        Append(Trade(timestamp, stock, quantity, indicator, price));
        outcome := Returned;
      } else {
        outcome := Raised(FaultError(fault.value, stock));
      }
    }

    /**
     * `record_trade` of the calculator module's copy of the store: the same
     * append, but a failure is returned as a message (`Some(error)`) instead
     * of being raised.
     */
    method RecordTradeReporting(timestamp: int, stock: string, quantity: int, indicator: string, price: real,
                                fault: Option<Fault>) returns (message: Option<Error>)
      requires Valid() && initialized
      modifies this`transactions
      ensures Valid()
      ensures message.None? <==> fault.None?
      ensures fault.None? ==>
        transactions == old(transactions) + [Trade(timestamp, stock, quantity, indicator, price)]
      ensures fault.Some? ==>
        transactions == old(transactions) && message == Some(FaultError(fault.value, stock))
    {
      if fault.None? {
        Append(Trade(timestamp, stock, quantity, indicator, price));
        message := None;
      } else {
        message := Some(FaultError(fault.value, stock));
      }
    }
  }

  /**
   * Recording a TSLA and then a GOOG trade on a fresh store leaves a log of
   * two records holding both symbols, in that order, although neither symbol
   * is in the dividend table.
   */
  method RecordTwoTrades(timeNow: int) returns (log: seq<Trade>)
    ensures |log| == 2 && HasTrade(log, "TSLA") && HasTrade(log, "GOOG")
    ensures log[0] == Trade(timeNow, "TSLA", 20000, "BUY", 175.0)
    ensures log[1] == Trade(timeNow, "GOOG", 20000, "BUY", 177.0)
    ensures !HasRow(SeedTable(), "TSLA") && !HasRow(SeedTable(), "GOOG")
  {
    var store := new StocksData();
    var stocksData := store.New();
    var first := stocksData.RecordTrade(timeNow, "TSLA", 20000, "BUY", 175.0, None);
    var second := stocksData.RecordTrade(timeNow, "GOOG", 20000, "BUY", 177.0, None);
    log := stocksData.transactions;
    assert log[0].symbol == "TSLA" && log[1].symbol == "GOOG";
  }

  /**
   * Asking for the store twice yields the same instance, and the second
   * request does not reset a trade log that was populated in between.
   */
  method ConstructTwice(t: Trade) returns (same: bool, log: seq<Trade>)
    ensures same
    ensures log == [t]
  {
    var store := new StocksData();
    var instance1 := store.New();
    var outcome := instance1.RecordTrade(t.timestamp, t.symbol, t.quantity, t.indicator, t.price, None);
    var instance2 := store.New();
    same := instance1 == instance2;
    log := instance2.transactions;
  }
}
