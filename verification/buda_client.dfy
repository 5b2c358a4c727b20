/**
 * The exchange client's payload handling: the `Ticker` record, splitting a market
 * identifier, the type guard on price fields, and the loop that turns the decoded
 * `/api/v2/tickers` response into tickers keyed by upper-cased market identifier.
 *
 * The HTTP request itself is not modelled: its outcome arrives as a `Fetched` value.
 * Parsing a decimal string is a library call and arrives as the parameter `dec`.
 */
module BudaClient {
  import opened Wrappers
  import opened Ascii

  /** A decoded JSON value. */
  datatype Json =
    | JNull
    | JBool(b: bool)
    | JNumber(n: real)
    | JString(s: string)
    | JArray(elems: seq<Json>)
    | JObject(fields: map<string, Json>)

  /** Why the client gives up: the `BudaUpstreamError` messages, one constructor each. */
  datatype UpstreamError =
    | Timeout
    | BadStatus(code: int)
    | CallOrDecodeFailed
    | TickersNotList
    | InvalidFieldType(field: string)
    | InvalidFieldValue(field: string, value: string)
    | InvalidMarketId(marketId: string)

  /**
   * A failure of `get_tickers`. `Upstream` is a `BudaUpstreamError`; `NotAnObject` is the
   * `AttributeError` that `data.get` raises when the decoded body is not a JSON object,
   * which is not a `BudaUpstreamError`.
   */
  datatype Failure = Upstream(reason: UpstreamError) | NotAnObject

  /** What the HTTP exchange delivered: a decoded body, or one of the caught failures. */
  datatype Fetched = Body(data: Json) | TimedOut | HttpStatus(code: int) | TransportOrJsonError

  datatype Ticker = Ticker(marketId: string, base: string, quote: string, lastPrice: real)

  /** Python's `dict.get`. */
  function Get(fields: map<string, Json>, key: string): Option<Json>
  {
    if key in fields then Some(fields[key]) else None
  }

  /** Index of the first '-' in `s`, if any. */
  function DashIndex(s: string): (r: Option<nat>)
    ensures r.None? <==> '-' !in s
    ensures r.Some? ==> r.value < |s| && s[r.value] == '-' && '-' !in s[..r.value]
  {
    if |s| == 0 then None
    else if s[0] == '-' then Some(0)
    else match DashIndex(s[1..])
      case None => None
      case Some(i) => assert s[1..][..i] == s[1..i + 1]; Some(i + 1)
  }

  /**
   * `_split_market_id`: split at the first '-' and upper-case both halves; an identifier
   * without '-' is an upstream error.
   */
  function SplitMarketId(marketId: string): (r: Result<(string, string), UpstreamError>)
    ensures r.Err? <==> '-' !in marketId
    ensures r.Err? ==> r.error == InvalidMarketId(marketId)
    ensures r.Ok? ==> '-' !in r.value.0 && IsUpper(r.value.0) && IsUpper(r.value.1)
    ensures r.Ok? ==> r.value.0 + "-" + r.value.1 == Upper(marketId)
  {
    match DashIndex(marketId)
    case None => Err(InvalidMarketId(marketId))
    case Some(i) =>
      SplitJoin(marketId, i);
      Ok((Upper(marketId[..i]), Upper(marketId[i + 1..])))
  }

  /** Upper-casing the two sides of a '-' and joining them again upper-cases the whole. */
  lemma SplitJoin(s: string, i: nat)
    requires i < |s| && s[i] == '-' && '-' !in s[..i]
    ensures '-' !in Upper(s[..i])
    ensures Upper(s[..i]) + "-" + Upper(s[i + 1..]) == Upper(s)
  {
    UpperDash(s[..i]);
    var joined, u := Upper(s[..i]) + "-" + Upper(s[i + 1..]), Upper(s);
    assert |joined| == |u|;
    forall k | 0 <= k < |u|
      ensures joined[k] == u[k]
    {
      if k < i {
        assert joined[k] == Upper(s[..i])[k];
      } else if k == i {
        assert joined[k] == '-';
      } else {
        assert joined[k] == Upper(s[i + 1..])[k - i - 1];
      }
    }
  }

  /**
   * The type guard of `_parse_decimal`: anything but a JSON string is rejected before
   * `dec` (the decimal constructor) is consulted; `dec` answering `None` is the
   * `InvalidOperation` branch.
   */
  function ParseDecimal(value: Json, fieldName: string, dec: string -> Option<real>): (r: Result<real, UpstreamError>)
    ensures !value.JString? ==> r == Err(InvalidFieldType(fieldName))
    ensures value.JString? && dec(value.s).None? ==> r == Err(InvalidFieldValue(fieldName, value.s))
    ensures r.Ok? ==> value.JString? && dec(value.s) == Some(r.value)
  {
    if !value.JString? then Err(InvalidFieldType(fieldName))
    else match dec(value.s)
      case None => Err(InvalidFieldValue(fieldName, value.s))
      case Some(d) => Ok(d)
  }

  /** The tickers keyed by market identifier, as a Python dict: keys in insertion order. */
  datatype TickerTable = TickerTable(order: seq<string>, byId: map<string, Ticker>)

  /** The keys of `byId` are exactly the entries of `order`, each listed once. */
  ghost predicate WellFormed(t: TickerTable)
  {
    && (forall i, j :: 0 <= i < j < |t.order| ==> t.order[i] != t.order[j])
    && (forall k :: k in t.byId <==> k in t.order)
  }

  /** `out[key] = ticker`: a new key goes last, an existing key keeps its place. */
  function Put(t: TickerTable, key: string, ticker: Ticker): (r: TickerTable)
    requires WellFormed(t)
    ensures WellFormed(r)
    ensures r.byId == t.byId[key := ticker]
    ensures key in t.byId ==> r.order == t.order
    ensures key !in t.byId ==> r.order == t.order + [key]
  {
    TickerTable(if key in t.byId then t.order else t.order + [key], t.byId[key := ticker])
  }

  /** The entries of a sequence, as a set. */
  function Elems(s: seq<string>): set<string>
  {
    set i | 0 <= i < |s| :: s[i]
  }

  /** A sequence whose entries are pairwise distinct has as many entries as elements. */
  lemma {:induction false} DistinctCard(s: seq<string>)
    requires forall i, j :: 0 <= i < j < |s| ==> s[i] != s[j]
    ensures |Elems(s)| == |s|
  {
    if |s| > 0 {
      var m := |s| - 1;
      DistinctCard(s[..m]);
      assert Elems(s) == Elems(s[..m]) + {s[m]} by {
        forall k | k in Elems(s) ensures k in Elems(s[..m]) + {s[m]} {
          var i :| 0 <= i < |s| && s[i] == k;
          if i < m { assert s[..m][i] == k; }
        }
        forall k | k in Elems(s[..m]) ensures k in Elems(s) {
          var i :| 0 <= i < m && s[..m][i] == k;
          assert s[i] == k;
        }
      }
      assert s[m] !in Elems(s[..m]);
    }
  }

  /** A well-formed table holds as many tickers as it lists keys. */
  lemma TableCard(t: TickerTable)
    requires WellFormed(t)
    ensures |t.byId| == |t.order|
  {
    assert t.byId.Keys == Elems(t.order);
    DistinctCard(t.order);
  }

  /** `dict.values()`: one ticker per key, in key insertion order (see `ValuesPlaces`). */
  function Values(t: TickerTable): (r: seq<Ticker>)
    requires WellFormed(t)
    ensures |r| == |t.order| == |t.byId|
  {
    TableCard(t);
    seq(|t.order|, i requires 0 <= i < |t.order| => t.byId[t.order[i]])
  }

  /** The ticker at place `i` of `values()` is the one filed under the `i`-th key. */
  lemma ValuesAt(t: TickerTable, i: nat)
    requires WellFormed(t) && i < |t.order|
    ensures Values(t)[i] == t.byId[t.order[i]]
  {
  }

  /**
   * An item the loop passes over with `continue`. An item that gets past the three guards
   * is an object with a string `market_id` and a non-empty `last_price` list, so the code
   * after them can read both.
   */
  predicate Skipped(item: Json)
    ensures !Skipped(item) ==> item.JObject? && "market_id" in item.fields && item.fields["market_id"].JString?
    ensures !Skipped(item) ==> "last_price" in item.fields && item.fields["last_price"].JArray? && |item.fields["last_price"].elems| >= 1
  {
    || !item.JObject?
    || !(Get(item.fields, "market_id").Some? && Get(item.fields, "market_id").value.JString?)
    || !(var lp := Get(item.fields, "last_price"); lp.Some? && lp.value.JArray? && |lp.value.elems| >= 1)
  }

  /** What one loop iteration does with `item`. */
  datatype Step = Skip | Abort(error: UpstreamError) | Store(key: string, ticker: Ticker)

  /** The identifier of an item that is not skipped. */
  function MarketIdOf(item: Json): string
    requires !Skipped(item)
  {
    item.fields["market_id"].s
  }

  /** `last_price[0]` of an item that is not skipped. */
  function FirstPriceOf(item: Json): Json
    requires !Skipped(item)
  {
    item.fields["last_price"].elems[0]
  }

  /**
   * An item that is not skipped either aborts the batch (no '-' in its identifier, or a
   * first price that is not a decimal string) or stores a ticker under the upper-cased
   * identifier, whose own identifier is that key and whose upper-case halves join to it.
   */
  function Classify(item: Json, dec: string -> Option<real>): (s: Step)
    ensures s.Skip? <==> Skipped(item)
    ensures s.Abort? <==> !Skipped(item) && ('-' !in MarketIdOf(item) || ParseDecimal(FirstPriceOf(item), "last_price", dec).Err?)
    ensures s.Abort? && '-' !in MarketIdOf(item) ==> s.error == InvalidMarketId(MarketIdOf(item))
    ensures s.Abort? && '-' in MarketIdOf(item) ==> s.error == ParseDecimal(FirstPriceOf(item), "last_price", dec).error
    ensures s.Store? ==> s.key == Upper(MarketIdOf(item)) && s.ticker.marketId == s.key
    ensures s.Store? ==> IsUpper(s.ticker.base) && IsUpper(s.ticker.quote) && '-' !in s.ticker.base
    ensures s.Store? ==> s.ticker.base + "-" + s.ticker.quote == s.key
    ensures s.Store? ==> FirstPriceOf(item).JString? && dec(FirstPriceOf(item).s) == Some(s.ticker.lastPrice)
  {
    if Skipped(item) then Skip
    else
      var marketId := item.fields["market_id"].s;
      var price0 := item.fields["last_price"].elems[0];
      match SplitMarketId(marketId)
      case Err(e) => Abort(e)
      case Ok(parts) =>
        match ParseDecimal(price0, "last_price", dec)
        case Err(e) => Abort(e)
        case Ok(p) => Store(Upper(marketId), Ticker(Upper(marketId), parts.0, parts.1, p))
  }

  /** What the loop does with each item, in order. */
  function Steps(items: seq<Json>, dec: string -> Option<real>): seq<Step>
  {
    seq(|items|, i requires 0 <= i < |items| => Classify(items[i], dec))
  }

  /** The loop as a left fold over its steps: the first abort decides the error. */
  function Run(steps: seq<Step>): (r: Result<TickerTable, UpstreamError>)
    ensures r.Ok? ==> WellFormed(r.value)
    ensures r.Ok? ==> |r.value.order| <= |steps|
  {
    if |steps| == 0 then Ok(TickerTable([], map[]))
    else
      match Run(steps[..|steps| - 1])
      case Err(e) => Err(e)
      case Ok(table) =>
        match steps[|steps| - 1]
        case Skip => Ok(table)
        case Abort(e) => Err(e)
        case Store(key, ticker) => Ok(Put(table, key, ticker))
  }

  /** The `for item in tickers_raw` loop: a well-formed table of at most one ticker per item, or the loop's error. */
  function ParseItems(items: seq<Json>, dec: string -> Option<real>): (r: Result<TickerTable, UpstreamError>)
    ensures r.Ok? ==> WellFormed(r.value) && |r.value.byId| <= |items|
  {
    var r := Run(Steps(items, dec));
    if r.Ok? then TableCard(r.value); r else r
  }

  /** Once a prefix of the steps aborts, the whole run fails with that error. */
  lemma {:induction false} AbortPropagates(steps: seq<Step>, n: nat)
    requires n <= |steps|
    requires Run(steps[..n]).Err?
    ensures Run(steps) == Run(steps[..n])
  {
    if n < |steps| {
      var m := |steps| - 1;
      assert steps[..m][..n] == steps[..n];
      AbortPropagates(steps[..m], n);
    } else {
      assert steps[..n] == steps;
    }
  }

  /** The body's "tickers" member is present and is a JSON array. */
  predicate HasTickerList(fields: map<string, Json>)
  {
    "tickers" in fields && fields["tickers"].JArray?
  }

  /** `get_tickers` after the HTTP call, as a function of what the call delivered. */
  function Tickers(fetched: Fetched, dec: string -> Option<real>): (r: Result<TickerTable, Failure>)
    ensures fetched.Body? && fetched.data.JObject? && !HasTickerList(fetched.data.fields) ==> r == Err(Upstream(TickersNotList))
    ensures fetched.Body? && !fetched.data.JObject? ==> r == Err(NotAnObject)
    ensures !fetched.Body? ==> r.Err? && r.error.Upstream?
    ensures r.Ok? ==> WellFormed(r.value)
  {
    match fetched
    case TimedOut => Err(Upstream(Timeout))
    case HttpStatus(code) => Err(Upstream(BadStatus(code)))
    case TransportOrJsonError => Err(Upstream(CallOrDecodeFailed))
    case Body(data) =>
      if !data.JObject? then Err(NotAnObject)
      else
        var raw := Get(data.fields, "tickers");
        if !(raw.Some? && raw.value.JArray?) then Err(Upstream(TickersNotList))
        else
          match ParseItems(raw.value.elems, dec)
          case Err(e) => Err(Upstream(e))
          case Ok(table) => Ok(table)
  }

  /**
   * `BudaPublicClient.get_tickers` from the decoded body on: the `for item in tickers_raw`
   * loop with its `continue` guards, filling `out` in place.
   */
  method GetTickers(fetched: Fetched, dec: string -> Option<real>) returns (r: Result<TickerTable, Failure>)
    ensures r == Tickers(fetched, dec)
  {
    if !fetched.Body? {
      r := match fetched
        case TimedOut => Err(Upstream(Timeout))
        case HttpStatus(code) => Err(Upstream(BadStatus(code)))
        case TransportOrJsonError => Err(Upstream(CallOrDecodeFailed));
      return;
    }
    var data := fetched.data;
    if !data.JObject? {
      return Err(NotAnObject);
    }
    var tickersRaw := Get(data.fields, "tickers");
    if !(tickersRaw.Some? && tickersRaw.value.JArray?) {
      return Err(Upstream(TickersNotList));
    }
    var items := tickersRaw.value.elems;
    ghost var steps := Steps(items, dec);
    var out := TickerTable([], map[]);
    for n := 0 to |items|
      invariant Run(steps[..n]) == Ok(out)
    {
      assert steps[..n + 1][..n] == steps[..n];
      var item := items[n];
      if !item.JObject? {
        continue;
      }
      var marketId := Get(item.fields, "market_id");
      if !(marketId.Some? && marketId.value.JString?) {
        continue;
      }
      var lastPrice := Get(item.fields, "last_price");
      if !(lastPrice.Some? && lastPrice.value.JArray? && |lastPrice.value.elems| >= 1) {
        continue;
      }
      var parts := SplitMarketId(marketId.value.s);
      if parts.Err? {
        AbortPropagates(steps, n + 1);
        return Err(Upstream(parts.error));
      }
      var price := ParseDecimal(lastPrice.value.elems[0], "last_price", dec);
      if price.Err? {
        AbortPropagates(steps, n + 1);
        return Err(Upstream(price.error));
      }
      var key := Upper(marketId.value.s);
      out := Put(out, key, Ticker(key, parts.value.0, parts.value.1, price.value));
    }
    assert steps[..|items|] == steps;
    r := Ok(out);
  }
}
