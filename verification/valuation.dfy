/**
 * Portfolio valuation, as the repository's tests expect it of the `/portfolio/value`
 * endpoint (test-derived: the endpoint itself returns zeros and never calls the pricing
 * engine). Each holding's symbol is upper-cased and priced in the fiat currency; a priced
 * holding is listed in the breakdown at amount times rate and added to the total, an
 * unpriced one is listed, upper-cased, among the unpriced symbols.
 *
 * `price(sym)` is the rate of `sym` in the fiat currency; the tests expect it to be the
 * two-hop search over the graph of the current tickers, `s => Rate(g, s, fiat)`.
 */
module Valuation {
  import opened Wrappers
  import opened Ascii
  import opened BudaClient
  import opened Pricing
  import opened PricingProperties

  /** The endpoint's answer: the total, each priced symbol's value, and the unpriced symbols. */
  datatype PortfolioValue = PortfolioValue(total: real, breakdown: map<string, real>, unpriced: seq<string>)

  /** The value of `amount` units at `rate`. */
  function Worth(amount: real, rate: real): real
  {
    amount * rate
  }

  /**
   * The valuation of `holdings` (symbol and amount, in the portfolio's order): every
   * breakdown symbol has a rate, every unpriced one has none, and each holding adds at most
   * one unpriced entry.
   */
  function Valuate(price: string -> Option<real>, holdings: seq<(string, real)>): (r: PortfolioValue)
    ensures forall s :: s in r.breakdown ==> price(s).Some?
    ensures forall s :: s in r.unpriced ==> price(s).None?
    ensures |r.unpriced| <= |holdings|
  {
    if |holdings| == 0 then PortfolioValue(0.0, map[], [])
    else
      var v := Valuate(price, holdings[..|holdings| - 1]);
      var (symbol, amount) := holdings[|holdings| - 1];
      var sym := Upper(symbol);
      match price(sym)
      case Some(r) => PortfolioValue(v.total + Worth(amount, r), v.breakdown[sym := Worth(amount, r)], v.unpriced)
      case None => PortfolioValue(v.total, v.breakdown, v.unpriced + [sym])
  }

  /** Holding `i` has a rate in `fiat`. */
  predicate Priced(price: string -> Option<real>, holdings: seq<(string, real)>, i: nat)
  {
    i < |holdings| && price(Upper(holdings[i].0)).Some?
  }

  /** Every unpriced symbol is the upper-cased symbol of a holding without a rate. */
  lemma {:induction false} UnpricedSound(price: string -> Option<real>, holdings: seq<(string, real)>, sym: string)
    requires sym in Valuate(price, holdings).unpriced
    ensures exists i :: 0 <= i < |holdings| && Upper(holdings[i].0) == sym && !Priced(price, holdings, i)
  {
    var m := |holdings| - 1;
    var pre := holdings[..m];
    if sym in Valuate(price, pre).unpriced {
      UnpricedSound(price, pre, sym);
      var i :| 0 <= i < m && Upper(pre[i].0) == sym && !Priced(price, pre, i);
      assert holdings[i] == pre[i];
    } else {
      assert Upper(holdings[m].0) == sym && !Priced(price, holdings, m);
    }
  }

  /** The holdings the valuation has seen keep their place in the lists: entries are never removed. */
  lemma {:induction false} ValuateGrows(price: string -> Option<real>, holdings: seq<(string, real)>, k: nat)
    requires k <= |holdings|
    ensures forall s :: s in Valuate(price, holdings[..k]).unpriced ==> s in Valuate(price, holdings).unpriced
    ensures Valuate(price, holdings[..k]).breakdown.Keys <= Valuate(price, holdings).breakdown.Keys
  {
    if k < |holdings| {
      var m := |holdings| - 1;
      assert holdings[..m][..k] == holdings[..k];
      ValuateGrows(price, holdings[..m], k);
    } else {
      assert holdings[..k] == holdings;
    }
  }

  /** Every holding without a rate has its upper-cased symbol among the unpriced ones. */
  lemma UnpricedComplete(price: string -> Option<real>, holdings: seq<(string, real)>, i: nat)
    requires i < |holdings| && !Priced(price, holdings, i)
    ensures Upper(holdings[i].0) in Valuate(price, holdings).unpriced
  {
    ValuateGrows(price, holdings, i + 1);
    assert holdings[..i + 1][..i] == holdings[..i];
  }

  /** Every symbol of the breakdown is the upper-cased symbol of a holding with a rate. */
  lemma {:induction false} BreakdownSound(price: string -> Option<real>, holdings: seq<(string, real)>, sym: string)
    requires sym in Valuate(price, holdings).breakdown
    ensures exists i :: 0 <= i < |holdings| && Upper(holdings[i].0) == sym && Priced(price, holdings, i)
  {
    var m := |holdings| - 1;
    var pre := holdings[..m];
    if Upper(holdings[m].0) == sym && Priced(price, holdings, m) {
    } else {
      BreakdownSound(price, pre, sym);
      var i :| 0 <= i < m && Upper(pre[i].0) == sym && Priced(price, pre, i);
      assert holdings[i] == pre[i];
    }
  }

  /** Every holding with a rate has its upper-cased symbol in the breakdown. */
  lemma BreakdownComplete(price: string -> Option<real>, holdings: seq<(string, real)>, i: nat)
    requires Priced(price, holdings, i)
    ensures Upper(holdings[i].0) in Valuate(price, holdings).breakdown
  {
    ValuateGrows(price, holdings, i + 1);
    assert holdings[..i + 1][..i] == holdings[..i];
  }

  /**
   * A priced holding that no later holding shares its upper-cased symbol with is listed in
   * the breakdown at its amount times its rate: a later duplicate overwrites an earlier one.
   */
  lemma {:induction false} BreakdownOfLast(price: string -> Option<real>, holdings: seq<(string, real)>, i: nat)
    requires Priced(price, holdings, i)
    requires forall j :: i < j < |holdings| ==> Upper(holdings[j].0) != Upper(holdings[i].0)
    ensures var sym := Upper(holdings[i].0);
      sym in Valuate(price, holdings).breakdown &&
      Valuate(price, holdings).breakdown[sym] == Worth(holdings[i].1, price(sym).value)
  {
    var m := |holdings| - 1;
    var pre := holdings[..m];
    var sym := Upper(holdings[i].0);
    if i < m {
      assert pre[i] == holdings[i];
      forall j | i < j < |pre| ensures Upper(pre[j].0) != Upper(pre[i].0) {
        assert pre[j] == holdings[j];
      }
      BreakdownOfLast(price, pre, i);
      assert Upper(holdings[m].0) != sym;
    }
  }

  /** The entries of `m` listed by `keys`, added up in order. */
  function SumOver(m: map<string, real>, keys: seq<string>): real
    requires forall k :: k in keys ==> k in m
  {
    if |keys| == 0 then 0.0 else SumOver(m, keys[..|keys| - 1]) + m[keys[|keys| - 1]]
  }

  /** Changing an entry no key lists leaves the sum alone. */
  lemma {:induction false} SumOverUpdate(m: map<string, real>, keys: seq<string>, k: string, x: real)
    requires forall j :: j in keys ==> j in m
    requires k !in keys
    ensures SumOver(m[k := x], keys) == SumOver(m, keys)
  {
    if |keys| > 0 {
      var n := |keys| - 1;
      assert forall j :: j in keys[..n] ==> j in keys;
      SumOverUpdate(m, keys[..n], k, x);
      assert keys[n] in keys;
    }
  }

  /** The upper-cased symbols of the priced holdings, in the portfolio's order. */
  function PricedSymbols(price: string -> Option<real>, holdings: seq<(string, real)>): seq<string>
  {
    if |holdings| == 0 then []
    else
      var pre := PricedSymbols(price, holdings[..|holdings| - 1]);
      var sym := Upper(holdings[|holdings| - 1].0);
      if price(sym).Some? then pre + [sym] else pre
  }

  /**
   * With distinct upper-cased symbols, the total is the sum of the breakdown's values: the
   * priced symbols list every breakdown symbol exactly once, and the total adds up their
   * entries.
   */
  lemma {:induction false} TotalIsBreakdownSum(price: string -> Option<real>, holdings: seq<(string, real)>)
    requires forall i, j :: 0 <= i < j < |holdings| ==> Upper(holdings[i].0) != Upper(holdings[j].0)
    ensures var v, keys := Valuate(price, holdings), PricedSymbols(price, holdings);
      && (forall k :: k in keys <==> k in v.breakdown)
      && (forall i, j :: 0 <= i < j < |keys| ==> keys[i] != keys[j])
      && v.total == SumOver(v.breakdown, keys)
  {
    if |holdings| > 0 {
      var m := |holdings| - 1;
      var pre := holdings[..m];
      forall i, j | 0 <= i < j < |pre| ensures Upper(pre[i].0) != Upper(pre[j].0) {
        assert pre[i] == holdings[i] && pre[j] == holdings[j];
      }
      TotalIsBreakdownSum(price, pre);
      var v0, keys0 := Valuate(price, pre), PricedSymbols(price, pre);
      var sym := Upper(holdings[m].0);
      if price(sym).Some? {
        var w := Worth(holdings[m].1, price(sym).value);
        assert sym !in v0.breakdown by {
          if sym in v0.breakdown {
            BreakdownSound(price, pre, sym);
          }
        }
        SumOverUpdate(v0.breakdown, keys0, sym, w);
        var keys := keys0 + [sym];
        assert keys[..|keys| - 1] == keys0;
      }
    }
  }

  /** With non-negative amounts and positive rates, the total is never negative. */
  lemma {:induction false} ValuateTotalNonNegative(price: string -> Option<real>, holdings: seq<(string, real)>)
    requires forall s :: price(s).Some? ==> price(s).value > 0.0
    requires forall i :: 0 <= i < |holdings| ==> holdings[i].1 >= 0.0
    ensures Valuate(price, holdings).total >= 0.0
  {
    if |holdings| > 0 {
      var m := |holdings| - 1;
      ValuateTotalNonNegative(price, holdings[..m]);
      var sym := Upper(holdings[m].0);
      if price(sym).Some? {
        WorthNonNegative(holdings[m].1, price(sym).value);
      }
    }
  }

  lemma WorthNonNegative(amount: real, rate: real)
    requires amount >= 0.0 && rate > 0.0
    ensures Worth(amount, rate) >= 0.0
  {
  }

  /** Pricing by the two-hop search over the graph of some tickers only ever gives positive rates. */
  lemma SearchPricesPositive(ts: seq<Ticker>, fiat: string)
    ensures forall s :: Rate(GraphOf(ts), s, fiat).Some? ==> Rate(GraphOf(ts), s, fiat).value > 0.0
  {
    GraphOfPositive(ts);
    forall s | Rate(GraphOf(ts), s, fiat).Some?
      ensures Rate(GraphOf(ts), s, fiat).value > 0.0
    {
      RatePositive(GraphOf(ts), s, fiat);
    }
  }

  /** No market mentions DOGE, so it has no rate. */
  lemma DogeHasNoRate()
    ensures Rate(GraphOf([Ticker("BTC-CLP", "BTC", "CLP", 80000000.0)]), "DOGE", "CLP") == None
  {
    SingleTickerGraph();
    DogeWithoutEdges(GraphOf([Ticker("BTC-CLP", "BTC", "CLP", 80000000.0)]));
  }

  /** In any graph without edges out of DOGE, DOGE has no rate in CLP. */
  lemma DogeWithoutEdges(g: Graph)
    requires Out(g, "DOGE") == []
    ensures Rate(g, "DOGE", "CLP") == None
  {
    UpperExamples();
    assert Upper("DOGE") == "DOGE";
    assert "DOGE" != "CLP" by {
      assert "DOGE"[0] != "CLP"[0];
    }
    NoEdgesNoRate(g, "DOGE", "CLP");
  }

  /** BTC 1 and DOGE 10, BTC at 80000000 and DOGE without a rate. */
  lemma UnpricedValuation(price: string -> Option<real>)
    requires price("BTC") == Some(80000000.0) && price("DOGE") == None
    ensures Valuate(price, [("BTC", 1.0), ("DOGE", 10.0)]) == PortfolioValue(80000000.0, map["BTC" := 80000000.0], ["DOGE"])
  {
    assert Upper("BTC") == "BTC" && Upper("DOGE") == "DOGE";
    var h: seq<(string, real)> := [("BTC", 1.0), ("DOGE", 10.0)];
    assert h[..1] == [("BTC", 1.0)] && h[..1][..0] == [];
    assert Worth(1.0, 80000000.0) == 80000000.0;
  }

  /** BTC 1 and DOGE 10 against BTC-CLP at 80000000: BTC is worth 80000000 CLP, DOGE is unpriced. */
  lemma UnpricedExample()
    ensures var g := GraphOf([Ticker("BTC-CLP", "BTC", "CLP", 80000000.0)]);
      Valuate(s => Rate(g, s, "CLP"), [("BTC", 1.0), ("DOGE", 10.0)]) == PortfolioValue(80000000.0, map["BTC" := 80000000.0], ["DOGE"])
  {
    var g := GraphOf([Ticker("BTC-CLP", "BTC", "CLP", 80000000.0)]);
    SingleTickerExample();
    RateCaseInsensitive(g, "btc", "clp");
    UpperExamples();
    DogeHasNoRate();
    UnpricedValuation(s => Rate(g, s, "CLP"));
  }

  /** ETH 2 against ETH-BTC at 0.033 and BTC-CLP at 80000000: 5280000 CLP, via BTC. */
  lemma TwoHopValuationExample()
    ensures var g := GraphOf([Ticker("ETH-BTC", "ETH", "BTC", 0.033), Ticker("BTC-CLP", "BTC", "CLP", 80000000.0)]);
      Valuate(s => Rate(g, s, "CLP"), [("eth", 2.0)]) == PortfolioValue(5280000.0, map["ETH" := 5280000.0], [])
  {
    var g := GraphOf([Ticker("ETH-BTC", "ETH", "BTC", 0.033), Ticker("BTC-CLP", "BTC", "CLP", 80000000.0)]);
    TwoHopExample();
    UpperExamples();
    RateCaseInsensitive(g, "eth", "clp");
    var h: seq<(string, real)> := [("eth", 2.0)];
    assert h[..0] == [];
  }
}
