# Buda portfolio pricing: a Dafny model

This project models the pricing core of a portfolio-valuation service built on the Buda
exchange's public ticker feed. The model has three parts.

- **Ticker parsing** (`BudaClient`, `buda_client.dfy`) starts from the decoded
  `/api/v2/tickers` response. It covers:
  - splitting a market identifier such as `"BTC-CLP"` at its first `-`, with both halves
    upper-cased;
  - the type guard on price fields;
  - the `get_tickers` loop. The loop skips malformed items, aborts the whole batch on a
    bad identifier or price, and files each ticker under its upper-cased identifier. A
    later duplicate overwrites an earlier one, as in a Python dict.
- **The conversion graph** (`Pricing`, `pricing.dfy`). `BuildGraph` fills a map from
  currency to its outgoing edges. Each ticker with price `p > 0` adds base→quote at `p`
  and quote→base at `1/p`, in ticker order, with no deduplication.
- **The two-hop search** (`Pricing.FindRateMax2Hops`). This is a breadth-first search with
  a FIFO queue of `(node, rate, depth)` and a visited set keyed by `(node, depth)`. It
  returns at the first edge into the target and never expands depth 2.

Each method is proved against a reference function:
- `GetTickers` against `Tickers`;
- `BuildGraph` against `GraphOf`;
- `FindRateMax2Hops` against `Rate`.

`Rate` is defined directly: 1 for equal symbols, else the first direct edge's rate, else
the first two-hop path in edge order. The lemmas in `buda_client_properties.dfy` and
`pricing_properties.dfy` state what those functions guarantee.

`valuation.dfy` (module `Valuation`) is **test-derived**. The repository's
`/portfolio/value` endpoint returns zeros, so this module's behaviour comes from the
expectations in `tests/test_portfolio_value.py` and not from any source function. Each
symbol is upper-cased and priced. A priced holding enters the breakdown at amount × rate
and is added to the total. An unpriced symbol is listed, upper-cased, under `unpriced`.

Rates are exact `real`s. Upper-casing is ASCII-only (`Ascii.Upper`).

Three behaviours of the code worth noting, which the model keeps:
- **Malformed items.** A string `market_id` without `-`, or a `last_price[0]` that is not a
  decimal string, aborts the whole batch with an upstream error. It is not skipped
  (app/buda_client.py:83-84).
- **Non-object body.** A decoded body that is not a JSON object makes `data.get` raise an
  `AttributeError`, which is not an upstream error. It is modelled as the separate
  failure `NotAnObject`.
- **Several tickers for one pair.** The rate between two currencies joined by several
  tickers is that of the first edge in ticker order, not that of every such ticker.

## Model

| member | source | states |
|---|---|---|
| Ascii.Upper | app/buda_client.py:38 | the result has the input's length, upper-cases each character in place, and is upper case |
| Ascii.UpperOfUpper | app/buda_client.py:38 | upper-casing an upper-case string leaves it unchanged |
| Ascii.UpperIdempotent | app/pricing.py:55-56 | upper-casing twice is the same as upper-casing once |
| Ascii.UpperAppend | app/buda_client.py:37-38 | upper-casing distributes over concatenation |
| Ascii.UpperDash | app/buda_client.py:35-38 | the upper-cased string has a `-` exactly when the original does |
| BudaClient.DashIndex | app/buda_client.py:35-37 | none exactly when the string has no `-`; otherwise the position of the first `-` |
| BudaClient.SplitMarketId | app/buda_client.py:34-38 | error exactly when the identifier has no `-`, and then the error carries the identifier; otherwise the left part has no `-`, both parts are upper case, and they rejoin with `-` to the upper-cased identifier |
| BudaClient.SplitJoin | app/buda_client.py:37-38 | upper-casing the parts on either side of the first `-` and rejoining them gives the upper-cased whole |
| BudaClientProperties.SplitMarketIdOfJoin | app/buda_client.py:34-38 | round trip: splitting `base + "-" + quote`, where `base` has no `-`, gives the upper-cased `base` and `quote` |
| BudaClient.ParseDecimal | app/buda_client.py:24-31 | a non-string is rejected as an invalid type for that field; a string the decimal parser refuses is rejected as an invalid value; a success comes only from a string and is the parser's value |
| BudaClient.Put | app/buda_client.py:86-91 | dict assignment: the map gets the new entry; a new key goes last in insertion order and an existing key keeps its place; keys stay distinct and match the order |
| BudaClient.Values | app/pricing.py:32 | `tickers.values()`: exactly as many tickers as the table has keys |
| BudaClientProperties.ValuesPlaces | app/pricing.py:32 | each key's ticker sits in `values()` at that key's place in insertion order |
| BudaClientProperties.ValuesPut | app/buda_client.py:86-91 | after `out[key] = ticker`, `values()` gains the ticker at the end for a new key; for an existing key it replaces that key's ticker in place and every other ticker stays where it was |
| BudaClient.Classify | app/buda_client.py:70-91 | an item is skipped exactly when one of the three guards fails; it aborts exactly when its identifier has no `-` or its first price is not a decimal string, with that error; otherwise it stores a ticker under the upper-cased identifier whose own identifier is that key and whose upper-case halves join to it |
| BudaClient.Skipped | app/buda_client.py:71-81 | an item that gets past the three `continue` guards is an object with a string `market_id` and a `last_price` list of at least one element |
| BudaClient.Run | app/buda_client.py:69-93 | the table a successful loop leaves is well formed and lists at most one key per step |
| BudaClient.ParseItems | app/buda_client.py:70-91 | the `for item in tickers_raw` loop either fails or yields a well-formed table with at most one ticker per item |
| BudaClient.AbortPropagates | app/buda_client.py:83-84 | once a prefix of the items aborts, the whole batch fails with that error |
| BudaClient.Tickers | app/buda_client.py:51-93 | timeouts, bad statuses and transport or decoding failures are upstream errors; a body that is not an object is `NotAnObject`; a missing or non-list `tickers` is the upstream error for that case; a success is a well-formed table |
| BudaClient.GetTickers | app/buda_client.py:65-93 | the imperative loop with its `continue` guards computes exactly `Tickers` |
| BudaClientProperties.StepsAppend | app/buda_client.py:70 | items are handled one at a time: the steps of a concatenation are the concatenated steps |
| BudaClientProperties.RunSkipIgnored | app/buda_client.py:71-81 | a skipped step anywhere in the run leaves the outcome unchanged |
| BudaClientProperties.RunSnocSame | app/buda_client.py:70-91 | runs with equal outcomes stay equal when the same step follows |
| BudaClientProperties.SkippedItemIgnored | app/buda_client.py:70-81 | removing an item that a guard skips never changes the result of the batch |
| BudaClientProperties.RunNoAbort | app/buda_client.py:69-93 | without an aborting step the run succeeds |
| BudaClientProperties.RunFirstAbort | app/buda_client.py:83-84 | the first aborting step decides the error, whatever follows |
| BudaClientProperties.FirstAbortDecides | app/buda_client.py:83-84 | the batch fails with the error of its first aborting item |
| BudaClientProperties.ParseItemsFails | app/buda_client.py:70-93 | the batch fails exactly when some item aborts it |
| BudaClientProperties.RunKeys | app/buda_client.py:86 | a successful run's keys are exactly the keys its steps store under |
| BudaClientProperties.RunLastStore | app/buda_client.py:86-91 | each key holds the ticker of the last step that stores under it |
| BudaClientProperties.RunTable | app/buda_client.py:86-91 | both of the above: a later duplicate overwrites an earlier one |
| BudaClientProperties.ParsedTable | app/buda_client.py:69-93 | the same, read over the items of a successful batch |
| BudaClientProperties.RunConsistent | app/buda_client.py:86-91 | consistent stores give a table whose every entry is filed under its own identifier |
| BudaClientProperties.ParsedTickersConsistent | app/buda_client.py:83-91 | each ticker of a successful batch is filed under its own upper-cased identifier, and its upper-case base and quote join to it |
| Pricing.AddEdge | app/pricing.py:29-30 | `setdefault(...).append(...)` appends one edge to the source's list, leaves every other list alone, and adds the source to the keys |
| Pricing.GroupSnoc | app/pricing.py:29-30 | appending one edge to the edge stream is one `add_edge` on the grouped graph |
| Pricing.GraphOfSnoc | app/pricing.py:32-41 | one more ticker adds nothing when its price is not positive; otherwise it adds exactly base→quote at the price, then quote→base at the reciprocal |
| Pricing.BuildGraph | app/pricing.py:20-43 | the loop builds exactly the graph of the table's tickers in insertion order |
| Pricing.FirstRateTo | app/pricing.py:69-75 | none exactly when no edge goes into the target; otherwise the rate of the first such edge |
| Pricing.Rate | app/pricing.py:55-58 | symbols that are equal after upper-casing give 1, whatever the graph |
| Pricing.Level1 | app/pricing.py:77-80 | the entries that expanding the source enqueues are all at depth 1 |
| Pricing.TwoHopItemsAppend | app/pricing.py:64-80 | searching `p + q` gives `p`'s answer when it has one, else `q`'s |
| Pricing.FirstTwoHopAppend | app/pricing.py:69-80 | the same for the two-hop scan over edges |
| Pricing.FirstTwoHopNone | app/pricing.py:69-80 | when the two-hop scan finds nothing, no target of the scanned edges has an edge into the destination |
| Pricing.Level1Search | app/pricing.py:77-80 | skipping a depth-1 target already visited never loses an answer: the search over the deduplicated entries equals the scan over all edges |
| Pricing.Level1Miss | app/pricing.py:64-80 | expanding one more depth-1 entry without a hit leaves the search without an answer |
| Pricing.TwoHopItemsAt | app/pricing.py:64-75 | the first depth-1 entry with an edge into the target decides the search over the entries |
| Pricing.RateViaLevel1 | app/pricing.py:64-75 | without a direct edge, that entry's rate times its first edge's rate is the answer |
| Pricing.NoEdgesNoRate | app/pricing.py:69 | a source without edges has no rate to a different symbol |
| Pricing.RateNoRoute | app/pricing.py:82 | with no direct edge and no depth-1 entry reaching the target, there is no answer |
| Pricing.Enqueue | app/pricing.py:77-80 | every entry the inner loop enqueues is one level deeper, and the visited set only grows |
| Pricing.EnqueueFromSource | app/pricing.py:61-80 | expanding the source enqueues exactly the depth-1 entries (one per distinct target, in first-occurrence order, at the first edge's rate) and marks exactly those targets at depth 1 |
| Pricing.HistoryFacts | app/pricing.py:77-80 | the visited set is exactly the set of keys of the entries enqueued so far, no key is enqueued twice, and every depth is 0, 1 or 2 |
| Pricing.EnqueueFacts | app/pricing.py:69-80 | expanding an entry over its edges enqueues only entries one edge beyond it with unvisited keys, keeps the visited set equal to the enqueued keys, and leaves every target of those edges visited one level deeper |
| Pricing.Expand | app/pricing.py:69-80 | the inner loop hits exactly when some edge goes into the target, and the hit is the running rate times the first such edge's rate; otherwise the queue and visited set grow as `Enqueue` says, the log of enqueued entries grows by exactly what the queue grows by, and every target of the entry is visited one level deeper; in both cases each newly logged entry is one edge beyond the expanded entry |
| Pricing.LogExpand | app/pricing.py:64-80 | one pop and expansion keeps the queue the unexpanded tail of the log, the visited set the log's keys, every logged entry after the source one edge beyond an earlier one, and every expanded entry's targets visited |
| Pricing.LogStart | app/pricing.py:58-60 | before the first pop, the queue and the log of enqueued entries are just the source at rate 1 and depth 0, and it alone is visited |
| Pricing.LogSkip | app/pricing.py:63-65 | popping a depth-2 entry without expanding it keeps the queue the unexpanded tail of the log |
| Pricing.FrontierExpand | app/pricing.py:63-80 | expanding the head of the queue: a hit is exactly `Rate`; a miss expands the source first and then one more depth-1 entry, with only depth-2 entries appended |
| Pricing.SearchStep | app/pricing.py:62-80 | one pass of the `while queue` loop: a hit is exactly `Rate`; a miss keeps the log and phase invariants and either enters a new phase or shrinks the queue |
| Pricing.SearchExhausted | app/pricing.py:62-82 | when the queue runs dry after the source and every depth-1 entry were expanded without a hit, `Rate` has no answer |
| Pricing.ClosedLog | app/pricing.py:67-80 | when every logged entry has been expanded, each target of an entry at depth 0 or 1 is logged one level deeper |
| Pricing.FrontierPop | app/pricing.py:64-67 | the head of the queue is the source, then the depth-1 entries in order, then depth-2 entries that are popped and skipped |
| Pricing.FrontierStart | app/pricing.py:61-80 | expanding the source without a hit leaves exactly the depth-1 entries in the queue |
| Pricing.FrontierNext | app/pricing.py:64-80 | expanding a depth-1 entry without a hit moves on to the next entry, with only depth-2 entries appended |
| Pricing.FindRateMax2Hops | app/pricing.py:46-82 | the search answers exactly `Rate`. Its log of every entry put into the queue is empty for equal symbols and otherwise starts at the source at rate 1 and depth 0; every later entry is one edge beyond an earlier one at the product rate; no `(node, depth)` key is enqueued twice; no depth exceeds 2; and when there is no answer, every target of a logged entry at depth 0 or 1 is logged one level deeper |
| PricingProperties.RateCaseInsensitive | app/pricing.py:55-56 | the answer depends only on the upper-cased symbols |
| PricingProperties.RateDirectFirst | app/pricing.py:69-75 | the first direct edge into the target decides the answer, ahead of any two-hop path |
| PricingProperties.FirstTwoHopAt | app/pricing.py:69-80 | the first edge whose target reaches the destination decides the two-hop scan |
| PricingProperties.FirstTwoHopAllNone | app/pricing.py:69-82 | when no target reaches the destination, the two-hop scan finds nothing |
| PricingProperties.FirstTwoHopNoneIff | app/pricing.py:69-82 | the two-hop scan finds nothing exactly when no target of the edges has an edge into the destination |
| PricingProperties.RateTwoHopFirst | app/pricing.py:64-80 | without a direct edge, the answer is the product of the rates along the first two-edge path in edge order |
| PricingProperties.RateSingleRoute | app/pricing.py:64-80 | a source whose only edge leads to a currency with an edge into the target gets the product of the two rates |
| PricingProperties.RateNoneNoPath | app/pricing.py:61-82 | without an answer the symbols differ and there is no path of one or two edges |
| PricingProperties.RateNoPathNone | app/pricing.py:61-82 | with different symbols and no path of one or two edges, there is no answer |
| PricingProperties.RateNoneIff | app/pricing.py:46-82 | no answer exactly when the upper-cased symbols differ and no path of one or two edges exists |
| PricingProperties.RateSound | app/pricing.py:46-82 | any answer is 1 for equal symbols, the rate of a direct edge, or the product of the rates along a two-edge path |
| Pricing.GraphOf | app/pricing.py:20-43 | each currency's edge list is exactly the edges the tickers add out of it, in ticker order |
| PricingProperties.EdgeStreamAppend | app/pricing.py:32-41 | the edges of two ticker sequences in turn are the concatenation of their edges |
| PricingProperties.NonPositiveIgnored | app/pricing.py:33-34 | a ticker whose price is not positive can be removed from anywhere without changing the graph |
| PricingProperties.EdgeCount | app/pricing.py:32-41 | the tickers add exactly two edges per ticker with a positive price |
| PricingProperties.TickerEdgesMember | app/pricing.py:33-41 | a ticker adds an edge out of a currency exactly when its price is positive and the edge is base→quote at the price or quote→base at the reciprocal |
| PricingProperties.GraphEdges | app/pricing.py:20-43 | an edge leaves a currency in the graph exactly when some ticker with a positive price adds it |
| PricingProperties.GraphShape | app/pricing.py:29-41 | every key and every edge target is upper case, and no key has an empty edge list |
| PricingProperties.GraphOfPositive | app/pricing.py:33-41 | every rate in the graph is positive |
| PricingProperties.RatePositive | app/pricing.py:46-82 | over a graph of positive rates every answer is positive |
| PricingProperties.GraphOfOne | app/pricing.py:32-41 | the graph of one ticker with a positive price is its two edges |
| PricingProperties.OutOfSnoc | app/pricing.py:29-32 | a later ticker's edges come after the earlier ones in each list |
| PricingProperties.SingleTickerExample | tests/test_portfolio_value.py:160-174 | with BTC-CLP at 80000000: `btc`→`clp` is 80000000, CLP→BTC is its reciprocal, and BTC→ETH has no answer |
| PricingProperties.TwoHopExample | tests/test_portfolio_value.py:118-134 | with ETH-BTC at 0.033 and BTC-CLP at 80000000: `eth`→`clp` is 2640000, via BTC |
| PricingProperties.ThreeHopsExample | app/pricing.py:64-67 | with A-B, B-C and C-D: A→D (three hops) has no answer and A→C is 2 × 3 |
| Valuation.Valuate | tests/test_portfolio_value.py:39-260 | (test-derived) every breakdown symbol has a rate, every unpriced symbol has none, and there are at most as many unpriced entries as holdings |
| Valuation.BreakdownOfLast | tests/test_portfolio_value.py:74-110 | (test-derived) a priced holding whose upper-cased symbol no later holding shares is in the breakdown at its amount times its rate |
| Valuation.TotalIsBreakdownSum | tests/test_portfolio_value.py:74-110 | (test-derived) with distinct upper-cased symbols, the priced symbols list each breakdown symbol exactly once and the total is the sum of their breakdown values |
| Valuation.UnpricedSound | tests/test_portfolio_value.py:231-260 | (test-derived) every unpriced symbol is the upper-cased symbol of a holding without a rate |
| Valuation.UnpricedComplete | tests/test_portfolio_value.py:231-260 | (test-derived) every holding without a rate has its upper-cased symbol among the unpriced |
| Valuation.BreakdownSound | tests/test_portfolio_value.py:160-192 | (test-derived) every breakdown key is the upper-cased symbol of a holding with a rate |
| Valuation.BreakdownComplete | tests/test_portfolio_value.py:74-91 | (test-derived) every holding with a rate has its upper-cased symbol in the breakdown |
| Valuation.ValuateTotalNonNegative | tests/test_portfolio_value.py:203-206 | (test-derived) with non-negative amounts and positive rates the total is never negative |
| Valuation.SearchPricesPositive | app/pricing.py:33-82 | pricing by the search over a ticker graph only ever gives positive rates |
| Valuation.DogeHasNoRate | tests/test_portfolio_value.py:231-244 | (test-derived) with only BTC-CLP, DOGE has no rate in CLP |
| Valuation.UnpricedValuation | tests/test_portfolio_value.py:247-260 | (test-derived) BTC 1 and DOGE 10, with only BTC priced at 80000000: total 80000000, breakdown BTC only, DOGE unpriced |
| Valuation.UnpricedExample | tests/test_portfolio_value.py:247-260 | (test-derived) the same, with prices from the search over the graph of BTC-CLP |
| Valuation.TwoHopValuationExample | tests/test_portfolio_value.py:118-134 | (test-derived) ETH 2 against ETH-BTC at 0.033 and BTC-CLP at 80000000 is worth 5280000 CLP, with ETH in the breakdown and nothing unpriced |

## Left out

- The HTTP exchange in `get_tickers` (app/buda_client.py:51-63) is network I/O. Its
  outcome is the `Fetched` value: a decoded body, a timeout, an error status, or a
  transport or decoding failure. The client's base URL and timeout (app/buda_client.py:42-44)
  come from configuration and are not modelled.
- The `Decimal(value)` string grammar (app/buda_client.py:29), including NaN and Infinity,
  is library parsing. It is the parameter `dec`. Both the `InvalidOperation` and the
  `ValueError` branches are `dec` answering none. Since `dec` yields reals, a NaN price
  cannot arise, and so neither can the error that comparing it with 0 would raise.
- Decimal context rounding: `Decimal("1") / p` and `rate * edge.rate` round to 28
  significant digits. The model computes them exactly, as `Reciprocal` and `Chain`.
- Unicode `str.upper()`. `Ascii.Upper` changes only `a`–`z`; non-ASCII letters and
  length-changing case mappings are not modelled.
- The exception messages are modelled as error constructors with their data (field name,
  value, identifier, status code), not as text. Exception chaining (`from exc`) is not
  modelled.
- app/api.py, app/main.py, app/models.py and app/settings.py are not part of this model.
  These are the FastAPI wiring, the zero-returning `/portfolio/value` placeholder, the
  Pydantic validation (non-negative amounts, non-empty portfolio, allowed fiat codes) and
  the configuration.
- Valuation.Valuate: the rate lookup is a parameter `price`. `UnpricedExample` and
  `TwoHopValuationExample` instantiate it with the two-hop search. Holdings are a sequence
  in portfolio order. The tests do not say what happens when two holdings upper-case to the
  same symbol. Here the later one replaces the earlier in the breakdown, and both count
  toward the total.
- PricingProperties.EdgeCount states the edge count over the sequence of added edges, not
  as a sum of list lengths over the map.
- Pricing.FindRateMax2Hops: the body of the `while queue` loop is the separate method
  `Pricing.SearchStep`, and the inner `for edge in graph.get(node, [])` loop is the
  separate method `Pricing.Expand`, both with the same statements. The queue is a `seq`,
  not a deque.
