/**
 * Properties of the volume-weighted price: it is the weighted mean, rounded,
 * over exactly the symbol's trades inside the window, counted with their
 * multiplicity and in any order; it lies in the window's price range; and
 * trades outside the window do not move it.
 */
module VwapProperties {
  import opened Numerics
  import opened Stocks
  import opened Market

  /** Multiplying by a non-negative factor keeps the order. */
  lemma ProductBounds(a: real, b: real, q: real)
    requires a <= b && q >= 0.0
    ensures a * q <= b * q
  {
    assert (b - a) * q >= 0.0;
  }

  /** One more weighted term keeps the bounds of a weighted sum. */
  lemma AccumulateBounds(lo: real, hi: real, p: real, q: real, sumQ: real, sumPV: real)
    requires lo <= p <= hi && q >= 0.0
    requires lo * sumQ <= sumPV <= hi * sumQ
    ensures lo * (sumQ + q) <= sumPV + p * q <= hi * (sumQ + q)
  {
    ProductBounds(lo, p, q);
    ProductBounds(p, hi, q);
    assert lo * (sumQ + q) == lo * sumQ + lo * q;
    assert hi * (sumQ + q) == hi * sumQ + hi * q;
  }

  /** Dividing by a positive divisor keeps the bounds. */
  lemma QuotientBounds(s: real, q: real, lo: real, hi: real)
    requires q > 0.0 && lo * q <= s <= hi * q
    ensures lo <= s / q <= hi
  {
    assert s / q - lo == (s - lo * q) / q;
    assert hi - s / q == (hi * q - s) / q;
  }

  /**
   * With non-negative quantities and prices in [lo, hi], Σ(price × quantity)
   * lies between lo × Σ quantity and hi × Σ quantity.
   */
  lemma {:induction false} WeightedSumBounds(w: seq<Trade>, lo: real, hi: real)
    requires forall k :: 0 <= k < |w| ==> w[k].quantity >= 0 && lo <= w[k].price <= hi
    ensures lo * TotalQuantity(w) as real <= TotalPriceVolume(w) <= hi * TotalQuantity(w) as real
  {
    if w != [] {
      var init, t := w[..|w| - 1], w[|w| - 1];
      assert forall k :: 0 <= k < |init| ==> init[k] == w[k];
      WeightedSumBounds(init, lo, hi);
      var q, sumQ, sumPV := t.quantity as real, TotalQuantity(init) as real, TotalPriceVolume(init);
      assert TotalQuantity(w) as real == sumQ + q;
      assert TotalPriceVolume(w) == sumPV + t.price * q;
      AccumulateBounds(lo, hi, t.price, q, sumQ, sumPV);
    }
  }

  /** The weighted mean of prices in [lo, hi], with non-negative weights, lies in [lo, hi]. */
  lemma WeightedMeanBounds(w: seq<Trade>, lo: real, hi: real)
    requires forall k :: 0 <= k < |w| ==> w[k].quantity >= 0 && lo <= w[k].price <= hi
    requires TotalQuantity(w) > 0
    ensures lo <= TotalPriceVolume(w) / TotalQuantity(w) as real <= hi
  {
    var s, q := TotalPriceVolume(w), TotalQuantity(w) as real;
    assert lo * q <= s <= hi * q by {
      WeightedSumBounds(w, lo, hi);
    }
    QuotientBounds(s, q, lo, hi);
  }

  /**
   * The volume-weighted price is a weighted mean: when every trade in the
   * window has a non-negative quantity and a price in [lo, hi], a finite
   * result lies in [lo, hi] up to rounding.
   */
  lemma VwapWithinPriceRange(data: Tables, stock: string, minutes: int, now: int, lo: real, hi: real)
    requires forall t :: (t in data.transactions && t.symbol == stock && t.timestamp >= WindowStart(now, minutes)
      ==> t.quantity >= 0 && lo <= t.price <= hi)
    ensures var r := Vwap(data, stock, minutes, now);
      r.Ok? && r.value.Finite? ==> lo - 0.005 <= r.value.value <= hi + 0.005
  {
    var window := Window(data.transactions, stock, WindowStart(now, minutes));
    forall k | 0 <= k < |window|
      ensures window[k].quantity >= 0 && lo <= window[k].price <= hi
    {
      assert window[k] in window;
    }
    if TotalQuantity(window) > 0 {
      WeightedMeanBounds(window, lo, hi);
    }
  }

  /** A symbol that traded, but only before the window, gets NaN rather than not-found. */
  lemma VwapAllTradesStale(data: Tables, stock: string, minutes: int, now: int)
    requires HasTrade(data.transactions, stock)
    requires forall t :: t in data.transactions && t.symbol == stock ==> t.timestamp < WindowStart(now, minutes)
    ensures Vwap(data, stock, minutes, now) == Ok(NaN)
  {
  }

  /**
   * Recording a trade that does not enter the symbol's window leaves its
   * volume-weighted price unchanged: a trade of another symbol, or a stale
   * trade of a symbol that already traded.
   */
  lemma VwapIgnoresTradeOutsideWindow(data: Tables, t: Trade, stock: string, minutes: int, now: int)
    requires t.symbol != stock || (t.timestamp < WindowStart(now, minutes) && HasTrade(data.transactions, stock))
    ensures Vwap(Tables(data.dividendData, data.transactions + [t]), stock, minutes, now)
         == Vwap(data, stock, minutes, now)
  {
    var log := data.transactions;
    var log' := log + [t];
    assert log'[..|log'| - 1] == log;
    assert Window(log', stock, WindowStart(now, minutes)) == Window(log, stock, WindowStart(now, minutes));
    assert HasTrade(log', stock) <==> HasTrade(log, stock) by {
      if HasTrade(log', stock) {
        var i :| 0 <= i < |log'| && log'[i].symbol == stock;
        if t.symbol != stock {
          assert i < |log| && log[i].symbol == stock;
        }
      }
      if HasTrade(log, stock) {
        var i :| 0 <= i < |log| && log[i].symbol == stock;
        assert log'[i].symbol == stock;
      }
    }
  }

  /**
   * The window keeps every matching trade as often as the log holds it, and
   * no other trade: a trade repeated in the log is counted repeatedly.
   */
  lemma {:induction false} WindowMultiplicity(log: seq<Trade>, stock: string, since: int)
    ensures forall t :: (multiset(Window(log, stock, since))[t]
      == (if t.symbol == stock && t.timestamp >= since then multiset(log)[t] else 0))
  {
    if log != [] {
      var init, last := log[..|log| - 1], log[|log| - 1];
      WindowMultiplicity(init, stock, since);
      assert log == init + [last];
    }
  }

  /** A longer window holds every trade a shorter one ending at the same time holds. */
  lemma WindowWidens(log: seq<Trade>, stock: string, now: int, shorter: int, longer: int)
    requires shorter <= longer
    ensures multiset(Window(log, stock, WindowStart(now, shorter)))
         <= multiset(Window(log, stock, WindowStart(now, longer)))
  {
    WindowMultiplicity(log, stock, WindowStart(now, shorter));
    WindowMultiplicity(log, stock, WindowStart(now, longer));
  }

  /** Both sums of a concatenation are the sums of its parts. */
  lemma {:induction false} TotalsConcat(a: seq<Trade>, b: seq<Trade>)
    ensures TotalQuantity(a + b) == TotalQuantity(a) + TotalQuantity(b)
    ensures TotalPriceVolume(a + b) == TotalPriceVolume(a) + TotalPriceVolume(b)
  {
    if b == [] {
      assert a + b == a;
    } else {
      var init := b[..|b| - 1];
      TotalsConcat(a, init);
      assert (a + b)[..|a + b| - 1] == a + init;
    }
  }

  /** A trade between two runs of trades adds its terms to both sums of the two runs. */
  lemma TotalsInsert(front: seq<Trade>, x: Trade, back: seq<Trade>)
    ensures TotalQuantity(front + ([x] + back)) == TotalQuantity(front + back) + x.quantity
    ensures TotalPriceVolume(front + ([x] + back)) == TotalPriceVolume(front + back) + PriceVolume(x)
  {
    TotalsConcat(front, [x] + back);
    TotalsConcat([x], back);
    assert [x][..0] == [];
    TotalsConcat(front, back);
  }

  /** Taking the trade at index j out of a sequence takes its terms out of both sums. */
  lemma TotalsRemove(a: seq<Trade>, j: int)
    requires 0 <= j < |a|
    ensures TotalQuantity(a) == TotalQuantity(a[..j] + a[j + 1..]) + a[j].quantity
    ensures TotalPriceVolume(a) == TotalPriceVolume(a[..j] + a[j + 1..]) + PriceVolume(a[j])
  {
    assert a == a[..j] + ([a[j]] + a[j + 1..]) by {
      assert a[j..] == [a[j]] + a[j + 1..];
      assert a == a[..j] + a[j..];
    }
    TotalsInsert(a[..j], a[j], a[j + 1..]);
  }

  /** Taking the element at index j out of a sequence takes one copy of it out of its multiset. */
  lemma MultisetRemove(a: seq<Trade>, j: int)
    requires 0 <= j < |a|
    ensures multiset(a[..j] + a[j + 1..]) == multiset(a) - multiset{a[j]}
  {
    assert a == a[..j] + [a[j]] + a[j + 1..];
  }

  /**
   * Two sequences with the same multiset still have the same multiset after
   * the last element of one and an equal element of the other are taken out.
   */
  lemma PermutationStep(a: seq<Trade>, b: seq<Trade>, j: int)
    requires multiset(a) == multiset(b) && b != []
    requires 0 <= j < |a| && a[j] == b[|b| - 1]
    ensures multiset(a[..j] + a[j + 1..]) == multiset(b[..|b| - 1])
  {
    MultisetRemove(a, j);
    MultisetRemove(b, |b| - 1);
    assert b[..|b| - 1] + b[|b|..] == b[..|b| - 1];
  }

  /** Both sums depend only on which trades occur how often, not on their order. */
  lemma {:induction false} TotalsPermutation(a: seq<Trade>, b: seq<Trade>)
    requires multiset(a) == multiset(b)
    ensures TotalQuantity(a) == TotalQuantity(b)
    ensures TotalPriceVolume(a) == TotalPriceVolume(b)
    decreases |b|
  {
    if b == [] {
      assert |a| == |multiset(a)| == 0;
    } else {
      assert b[|b| - 1] in multiset(a) by {
        assert b[|b| - 1] in b;
      }
      var j :| 0 <= j < |a| && a[j] == b[|b| - 1];
      PermutationStep(a, b, j);
      TotalsRemove(a, j);
      TotalsPermutation(a[..j] + a[j + 1..], b[..|b| - 1]);
    }
  }

  /**
   * A positive total quantity in the window gives a finite volume-weighted
   * price within rounding of Σ(price × quantity) / Σ quantity over the window.
   */
  lemma VwapIsWeightedMean(data: Tables, stock: string, minutes: int, now: int)
    ensures var w := Window(data.transactions, stock, WindowStart(now, minutes));
      var r := Vwap(data, stock, minutes, now);
      TotalQuantity(w) > 0 ==>
        r.Ok? && r.value.Finite?
        && -0.005 <= r.value.value - TotalPriceVolume(w) / TotalQuantity(w) as real <= 0.005
        && Hundredths(r.value.value)
  {
  }

  /** Any listing of exactly the matching trades, with their multiplicities, is the window up to order. */
  lemma WindowIsMatching(log: seq<Trade>, stock: string, since: int, w: seq<Trade>)
    requires forall t :: (multiset(w)[t]
      == (if t.symbol == stock && t.timestamp >= since then multiset(log)[t] else 0))
    ensures multiset(w) == multiset(Window(log, stock, since))
  {
    WindowMultiplicity(log, stock, since);
  }

  /**
   * The volume-weighted price is the weighted mean over exactly the trades of
   * the symbol stamped inside the window, each counted as often as the log
   * holds it, in whatever order they are listed.
   */
  lemma VwapOverMatchingTrades(data: Tables, stock: string, minutes: int, now: int, w: seq<Trade>)
    requires forall t :: (multiset(w)[t]
      == (if t.symbol == stock && t.timestamp >= WindowStart(now, minutes) then multiset(data.transactions)[t] else 0))
    requires TotalQuantity(w) > 0
    ensures var r := Vwap(data, stock, minutes, now);
      r.Ok? && r.value.Finite?
      && -0.005 <= r.value.value - TotalPriceVolume(w) / TotalQuantity(w) as real <= 0.005
      && Hundredths(r.value.value)
  {
    var window := Window(data.transactions, stock, WindowStart(now, minutes));
    WindowIsMatching(data.transactions, stock, WindowStart(now, minutes), w);
    TotalsPermutation(w, window);
    VwapIsWeightedMean(data, stock, minutes, now);
  }
}
