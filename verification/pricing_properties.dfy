/**
 * What the pricing engine guarantees: the shape of the conversion graph built from a
 * ticker sequence, and which conversion rate the two-hop search answers.
 */
module PricingProperties {
  import opened Wrappers
  import opened Ascii
  import opened BudaClient
  import opened Pricing

  // ---------------------------------------------------------------------------
  // find_rate_max_2_hops
  // ---------------------------------------------------------------------------

  /** Edge `i` out of `src` goes straight into `dst`. */
  predicate OneEdgePath(g: Graph, src: string, dst: string, i: nat)
  {
    i < |Out(g, src)| && Out(g, src)[i].to == dst
  }

  /** Edge `i` out of `src` leads to a currency whose edge `j` goes into `dst`. */
  predicate TwoEdgePath(g: Graph, src: string, dst: string, i: nat, j: nat)
  {
    i < |Out(g, src)| && OneEdgePath(g, Out(g, src)[i].to, dst, j)
  }

  /** The rate along the two-edge path through edge `i` out of `src` and then edge `j`. */
  function TwoEdgeRate(g: Graph, src: string, i: nat, j: nat): real
    requires i < |Out(g, src)| && j < |Out(g, Out(g, src)[i].to)|
  {
    Chain(Out(g, src)[i].rate, Out(g, Out(g, src)[i].to)[j].rate)
  }

  /** Edge `i` is the first of `edges` whose target has some edge into `dst`. */
  predicate FirstVia(g: Graph, edges: seq<Edge>, dst: string, i: nat)
  {
    && i < |edges|
    && FirstRateTo(Out(g, edges[i].to), dst).Some?
    && forall k :: 0 <= k < i ==> FirstRateTo(Out(g, edges[k].to), dst).None?
  }

  /** The answer depends on the two symbols only through their upper-case forms. */
  lemma RateCaseInsensitive(g: Graph, currency1: string, currency2: string)
    ensures Rate(g, Upper(currency1), Upper(currency2)) == Rate(g, currency1, currency2)
  {
    UpperIdempotent(currency1);
    UpperIdempotent(currency2);
  }

  /** A direct edge wins over any two-hop path: the first edge into the target decides. */
  lemma RateDirectFirst(g: Graph, currency1: string, currency2: string, i: nat)
    requires Upper(currency1) != Upper(currency2)
    requires FirstTo(Out(g, Upper(currency1)), Upper(currency2), i)
    ensures Rate(g, currency1, currency2) == Some(Out(g, Upper(currency1))[i].rate)
  {
  }

  /** The first edge whose target reaches `dst` decides the two-hop search over `edges`. */
  lemma FirstTwoHopAt(g: Graph, edges: seq<Edge>, dst: string, i: nat)
    requires FirstVia(g, edges, dst, i)
    ensures FirstTwoHop(g, edges, dst) == Some(Chain(edges[i].rate, FirstRateTo(Out(g, edges[i].to), dst).value))
  {
    var p, q := edges[..i], edges[i..];
    assert edges == p + q;
    forall k | 0 <= k < |p|
      ensures FirstRateTo(Out(g, p[k].to), dst).None?
    {
      assert p[k] == edges[k];
    }
    FirstTwoHopAllNone(g, p, dst);
    FirstTwoHopAppend(g, p, q, dst);
    assert q[0] == edges[i];
  }

  /** When no target of `edges` has an edge into `dst`, the two-hop search over them finds nothing. */
  lemma {:induction false} FirstTwoHopAllNone(g: Graph, edges: seq<Edge>, dst: string)
    requires forall k :: 0 <= k < |edges| ==> FirstRateTo(Out(g, edges[k].to), dst).None?
    ensures FirstTwoHop(g, edges, dst).None?
  {
    if |edges| > 0 {
      var rest := edges[1..];
      forall k | 0 <= k < |rest|
        ensures FirstRateTo(Out(g, rest[k].to), dst).None?
      {
        assert rest[k] == edges[k + 1];
      }
      FirstTwoHopAllNone(g, rest, dst);
      assert FirstRateTo(Out(g, edges[0].to), dst).None?;
    }
  }

  /**
   * Without a direct edge, the answer is the product of the rates along the first two-hop
   * path: the first edge out of the source (in list order) whose target has an edge into
   * the destination, followed by that target's first such edge.
   */
  lemma RateTwoHopFirst(g: Graph, currency1: string, currency2: string, i: nat, j: nat)
    requires Upper(currency1) != Upper(currency2)
    requires forall k :: 0 <= k < |Out(g, Upper(currency1))| ==> Out(g, Upper(currency1))[k].to != Upper(currency2)
    requires FirstVia(g, Out(g, Upper(currency1)), Upper(currency2), i)
    requires FirstTo(Out(g, Out(g, Upper(currency1))[i].to), Upper(currency2), j)
    ensures Rate(g, currency1, currency2) == Some(TwoEdgeRate(g, Upper(currency1), i, j))
  {
    FirstTwoHopAt(g, Out(g, Upper(currency1)), Upper(currency2), i);
  }

  /** No two-hop path starts among `edges` exactly when the search over them finds nothing. */
  lemma FirstTwoHopNoneIff(g: Graph, edges: seq<Edge>, dst: string)
    ensures FirstTwoHop(g, edges, dst).None? <==>
      forall i :: 0 <= i < |edges| ==> FirstRateTo(Out(g, edges[i].to), dst).None?
  {
    if FirstTwoHop(g, edges, dst).None? {
      forall i | 0 <= i < |edges|
        ensures FirstRateTo(Out(g, edges[i].to), dst).None?
      {
        FirstTwoHopNone(g, edges, dst, i);
      }
    } else if forall i :: 0 <= i < |edges| ==> FirstRateTo(Out(g, edges[i].to), dst).None? {
      FirstTwoHopAllNone(g, edges, dst);
    }
  }

  /**
   * Completeness: there is no answer exactly when the symbols differ and the graph has no
   * path of one or two edges from the source to the destination.
   */
  lemma RateNoneIff(g: Graph, currency1: string, currency2: string)
    ensures Rate(g, currency1, currency2).None? <==>
      var src, dst := Upper(currency1), Upper(currency2);
      && src != dst
      && (forall i: nat :: !OneEdgePath(g, src, dst, i))
      && (forall i: nat, j: nat :: !TwoEdgePath(g, src, dst, i, j))
  {
    var src, dst := Upper(currency1), Upper(currency2);
    if Rate(g, currency1, currency2).None? {
      RateNoneNoPath(g, currency1, currency2);
    } else if src != dst && (forall i: nat :: !OneEdgePath(g, src, dst, i)) && (forall i: nat, j: nat :: !TwoEdgePath(g, src, dst, i, j)) {
      RateNoPathNone(g, currency1, currency2);
    }
  }

  /** Without an answer, the symbols differ and there is no path of one or two edges. */
  lemma RateNoneNoPath(g: Graph, currency1: string, currency2: string)
    requires Rate(g, currency1, currency2).None?
    ensures var src, dst := Upper(currency1), Upper(currency2);
      && src != dst
      && (forall i: nat :: !OneEdgePath(g, src, dst, i))
      && (forall i: nat, j: nat :: !TwoEdgePath(g, src, dst, i, j))
  {
    var src, dst := Upper(currency1), Upper(currency2);
    var edges := Out(g, src);
    assert FirstRateTo(edges, dst).None? && FirstTwoHop(g, edges, dst).None?;
    forall i: nat
      ensures !OneEdgePath(g, src, dst, i)
    {
      if i < |edges| {
        assert edges[i].to != dst;
      }
    }
    forall i: nat, j: nat
      ensures !TwoEdgePath(g, src, dst, i, j)
    {
      if i < |edges| && j < |Out(g, edges[i].to)| {
        FirstTwoHopNone(g, edges, dst, i);
        assert Out(g, edges[i].to)[j].to != dst;
      }
    }
  }

  /** With different symbols and no path of one or two edges, there is no answer. */
  lemma RateNoPathNone(g: Graph, currency1: string, currency2: string)
    requires var src, dst := Upper(currency1), Upper(currency2);
      && src != dst
      && (forall i: nat :: !OneEdgePath(g, src, dst, i))
      && (forall i: nat, j: nat :: !TwoEdgePath(g, src, dst, i, j))
    ensures Rate(g, currency1, currency2).None?
  {
    var src, dst := Upper(currency1), Upper(currency2);
    var edges := Out(g, src);
    forall i | 0 <= i < |edges|
      ensures edges[i].to != dst
    {
      assert !OneEdgePath(g, src, dst, i);
    }
    forall i | 0 <= i < |edges|
      ensures FirstRateTo(Out(g, edges[i].to), dst).None?
    {
      forall j | 0 <= j < |Out(g, edges[i].to)|
        ensures Out(g, edges[i].to)[j].to != dst
      {
        assert !TwoEdgePath(g, src, dst, i, j);
      }
    }
    FirstTwoHopAllNone(g, edges, dst);
  }

  /**
   * Soundness: an answer is 1 for the same symbol, else the rate of an edge from the
   * source into the destination, else the product of the rates along a two-edge path.
   */
  lemma RateSound(g: Graph, currency1: string, currency2: string, r: real)
    requires Rate(g, currency1, currency2) == Some(r)
    ensures var src, dst := Upper(currency1), Upper(currency2);
      || (src == dst && r == 1.0)
      || (exists i: nat :: OneEdgePath(g, src, dst, i) && r == Out(g, src)[i].rate)
      || (exists i: nat, j: nat :: TwoEdgePath(g, src, dst, i, j) && r == TwoEdgeRate(g, src, i, j))
  {
    var src, dst := Upper(currency1), Upper(currency2);
    var edges := Out(g, src);
    if src != dst {
      if FirstRateTo(edges, dst).Some? {
        var k :| 0 <= k < |edges| && edges[k].to == dst;
        var i := FirstIndex(edges, dst, k);
        RateDirectFirst(g, currency1, currency2, i);
        assert OneEdgePath(g, src, dst, i);
      } else {
        var i := FirstViaOf(g, edges, dst);
        var x := edges[i].to;
        var l :| 0 <= l < |Out(g, x)| && Out(g, x)[l].to == dst;
        var j := FirstIndex(Out(g, x), dst, l);
        RateTwoHopFirst(g, currency1, currency2, i, j);
        assert TwoEdgePath(g, src, dst, i, j);
      }
    }
  }

  /** The first edge into `dst`, given that edge `k` is one. */
  lemma FirstIndex(edges: seq<Edge>, dst: string, k: nat) returns (i: nat)
    requires k < |edges| && edges[k].to == dst
    ensures FirstTo(edges, dst, i)
  {
    i := 0;
    while edges[i].to != dst
      invariant i <= k
      invariant forall j :: 0 <= j < i ==> edges[j].to != dst
      decreases k - i
    {
      i := i + 1;
    }
  }

  /** The first edge whose target reaches `dst`, given that the two-hop search over `edges` succeeds. */
  lemma {:induction false} FirstViaOf(g: Graph, edges: seq<Edge>, dst: string) returns (i: nat)
    requires FirstTwoHop(g, edges, dst).Some?
    ensures FirstVia(g, edges, dst, i)
  {
    if FirstRateTo(Out(g, edges[0].to), dst).Some? {
      i := 0;
    } else {
      var rest := edges[1..];
      assert FirstTwoHop(g, edges, dst) == FirstTwoHop(g, rest, dst);
      var i0 := FirstViaOf(g, rest, dst);
      i := i0 + 1;
      forall k | 0 <= k < i
        ensures FirstRateTo(Out(g, edges[k].to), dst).None?
      {
        if k > 0 {
          assert edges[k] == rest[k - 1];
        }
      }
      assert edges[i] == rest[i0];
    }
  }

  // ---------------------------------------------------------------------------
  // build_graph
  // ---------------------------------------------------------------------------

  lemma {:induction false} EdgeStreamAppend(a: seq<Ticker>, b: seq<Ticker>)
    ensures EdgeStream(a + b) == EdgeStream(a) + EdgeStream(b)
  {
    if |b| == 0 {
      assert a + b == a;
    } else {
      var b0, x := b[..|b| - 1], b[|b| - 1];
      assert a + b == (a + b0) + [x];
      assert b == b0 + [x];
      EdgeStreamAppend(a, b0);
      EdgeStreamSnoc(a + b0, x);
      EdgeStreamSnoc(b0, x);
      ConcatAssoc(EdgeStream(a), EdgeStream(b0), TickerEdges(x));
    }
  }

  lemma ConcatAssoc<T>(x: seq<T>, y: seq<T>, z: seq<T>)
    ensures (x + y) + z == x + (y + z)
  {
  }

  /** A ticker whose price is not positive contributes nothing, wherever it occurs. */
  lemma NonPositiveIgnored(before: seq<Ticker>, t: Ticker, after: seq<Ticker>)
    requires t.lastPrice <= 0.0
    ensures GraphOf(before + [t] + after) == GraphOf(before + after)
  {
    EdgeStreamAppend(before + [t], after);
    EdgeStreamAppend(before, [t]);
    EdgeStreamAppend(before, after);
    EdgeStreamSnoc([], t);
    assert [] + [t] == [t];
    assert EdgeStream(before + [t] + after) == EdgeStream(before + after);
  }

  /** The number of tickers with a positive price. */
  function Positives(ts: seq<Ticker>): nat
  {
    if |ts| == 0 then 0
    else Positives(ts[..|ts| - 1]) + (if ts[|ts| - 1].lastPrice > 0.0 then 1 else 0)
  }

  /** Two edges per ticker with a positive price, none deduplicated. */
  lemma {:induction false} EdgeCount(ts: seq<Ticker>)
    ensures |EdgeStream(ts)| == 2 * Positives(ts)
  {
    if |ts| > 0 {
      EdgeCount(ts[..|ts| - 1]);
    }
  }

  /** `e` is an edge out of `n` that ticker `t` contributes. */
  predicate Contributes(t: Ticker, n: string, e: Edge)
  {
    && t.lastPrice > 0.0
    && (|| (n == Upper(t.base) && e == Edge(Upper(t.quote), t.lastPrice))
        || (n == Upper(t.quote) && e == Edge(Upper(t.base), Reciprocal(t.lastPrice))))
  }

  lemma {:induction false} EdgesFromMember(s: seq<(string, Edge)>, n: string, e: Edge)
    ensures e in EdgesFrom(s, n) <==> (n, e) in s
  {
    if |s| > 0 {
      var m := |s| - 1;
      EdgesFromMember(s[..m], n, e);
      assert s == s[..m] + [s[m]];
    }
  }

  lemma {:induction false} StreamMember(ts: seq<Ticker>, n: string, e: Edge)
    ensures (n, e) in EdgeStream(ts) <==> exists k :: 0 <= k < |ts| && Contributes(ts[k], n, e)
  {
    if |ts| > 0 {
      var pre, t := ts[..|ts| - 1], ts[|ts| - 1];
      assert ts == pre + [t];
      EdgeStreamSnoc(pre, t);
      StreamMember(pre, n, e);
      TickerEdgesMember(t, n, e);
      if exists k :: 0 <= k < |ts| && Contributes(ts[k], n, e) {
        var k :| 0 <= k < |ts| && Contributes(ts[k], n, e);
        if k < |pre| {
          assert pre[k] == ts[k];
        }
      }
      if exists k :: 0 <= k < |pre| && Contributes(pre[k], n, e) {
        var k :| 0 <= k < |pre| && Contributes(pre[k], n, e);
        assert ts[k] == pre[k];
      }
    }
  }

  lemma TickerEdgesMember(t: Ticker, n: string, e: Edge)
    ensures (n, e) in TickerEdges(t) <==> Contributes(t, n, e)
  {
  }

  /**
   * The graph holds exactly the contributed edges: `e` is an edge out of `n` if and only if
   * some ticker with a positive price contributes it (base to quote at the price, or quote
   * to base at its reciprocal).
   */
  lemma GraphEdges(ts: seq<Ticker>, n: string, e: Edge)
    ensures e in Out(GraphOf(ts), n) <==> exists k :: 0 <= k < |ts| && Contributes(ts[k], n, e)
  {
    OutGroup(EdgeStream(ts), n);
    EdgesFromMember(EdgeStream(ts), n, e);
    StreamMember(ts, n, e);
  }

  /** Every currency of the graph and every edge target is upper case, and no list is empty. */
  lemma GraphShape(ts: seq<Ticker>)
    ensures forall n :: n in GraphOf(ts) ==>
      && IsUpper(n)
      && |GraphOf(ts)[n]| > 0
      && forall i :: 0 <= i < |GraphOf(ts)[n]| ==> IsUpper(GraphOf(ts)[n][i].to)
  {
    var s: seq<(string, Edge)>, g: Graph := EdgeStream(ts), GraphOf(ts);
    forall n | n in g
      ensures IsUpper(n) && |g[n]| > 0 && forall i :: 0 <= i < |g[n]| ==> IsUpper(g[n][i].to)
    {
      var l :| 0 <= l < |s| && s[l].0 == n;
      var e := s[l].1;
      EdgesFromMember(s, n, e);
      OutGroup(s, n);
      GraphEdges(ts, n, e);
      forall i | 0 <= i < |g[n]|
        ensures IsUpper(g[n][i].to)
      {
        GraphEdges(ts, n, g[n][i]);
      }
    }
  }

  /** Every edge of `g` has a positive rate. */
  predicate PositiveRates(g: Graph)
  {
    forall n, i :: n in g && 0 <= i < |g[n]| ==> g[n][i].rate > 0.0
  }

  /** Non-positive prices are filtered out, so every rate in the graph is positive. */
  lemma GraphOfPositive(ts: seq<Ticker>)
    ensures PositiveRates(GraphOf(ts))
  {
    var g: Graph := GraphOf(ts);
    forall n, i | n in g && 0 <= i < |g[n]|
      ensures g[n][i].rate > 0.0
    {
      GraphEdges(ts, n, g[n][i]);
    }
  }

  lemma ChainPositive(r1: real, r2: real)
    requires r1 > 0.0 && r2 > 0.0
    ensures Chain(r1, r2) > 0.0
  {
  }

  /** Over a graph of positive rates every answer is positive. */
  lemma RatePositive(g: Graph, currency1: string, currency2: string)
    requires PositiveRates(g)
    requires Rate(g, currency1, currency2).Some?
    ensures Rate(g, currency1, currency2).value > 0.0
  {
    var src, dst := Upper(currency1), Upper(currency2);
    var edges := Out(g, src);
    if src != dst {
      if FirstRateTo(edges, dst).Some? {
        var k :| 0 <= k < |edges| && edges[k].to == dst;
        var i := FirstIndex(edges, dst, k);
        RateDirectFirst(g, currency1, currency2, i);
        assert src in g;
      } else {
        var i := FirstViaOf(g, edges, dst);
        var x := edges[i].to;
        var l :| 0 <= l < |Out(g, x)| && Out(g, x)[l].to == dst;
        var j := FirstIndex(Out(g, x), dst, l);
        RateTwoHopFirst(g, currency1, currency2, i, j);
        assert src in g && x in g;
        ChainPositive(edges[i].rate, Out(g, x)[j].rate);
      }
    }
  }

  // ---------------------------------------------------------------------------
  // Worked examples
  // ---------------------------------------------------------------------------

  lemma UpperExamples()
    ensures Upper("eth") == "ETH" && Upper("clp") == "CLP" && Upper("btc") == "BTC"
    ensures Upper("ETH") == "ETH" && Upper("CLP") == "CLP" && Upper("BTC") == "BTC"
  {
  }

  /** The graph of one ticker with a positive price: its two edges. */
  lemma GraphOfOne(t: Ticker)
    requires t.lastPrice > 0.0
    ensures GraphOf([t]) == AddEdge(AddEdge(map[], Upper(t.base), Upper(t.quote), t.lastPrice), Upper(t.quote), Upper(t.base), Reciprocal(t.lastPrice))
  {
    GraphOfSnoc([], t);
    assert [] + [t] == [t];
    assert GraphOf([]) == map[];
  }

  lemma {:induction false} EdgesFromAppend(a: seq<(string, Edge)>, b: seq<(string, Edge)>, n: string)
    ensures EdgesFrom(a + b, n) == EdgesFrom(a, n) + EdgesFrom(b, n)
  {
    if |b| == 0 {
      assert a + b == a;
    } else {
      var m := |b| - 1;
      EdgesFromAppend(a, b[..m], n);
      assert (a + b)[..|a| + m] == a + b[..m];
    }
  }

  lemma EdgesFromPair(x: (string, Edge), y: (string, Edge), n: string)
    ensures EdgesFrom([x, y], n) == (if x.0 == n then [x.1] else []) + (if y.0 == n then [y.1] else [])
  {
    assert [x, y][..1] == [x];
    assert [x][..0] == [];
    assert EdgesFrom([x], n) == [] + (if x.0 == n then [x.1] else []);
    assert EdgesFrom([x, y], n) == EdgesFrom([x], n) + (if y.0 == n then [y.1] else []);
  }

  /** No tickers, no edges. */
  lemma OutOfNone(n: string)
    ensures Out(GraphOf([]), n) == []
  {
    OutGroup(EdgeStream([]), n);
  }

  /** The edges out of `n` after one more ticker: those before, then the ticker's own. */
  lemma OutOfSnoc(ts: seq<Ticker>, t: Ticker, n: string)
    ensures Out(GraphOf(ts + [t]), n) == Out(GraphOf(ts), n) + EdgesFrom(TickerEdges(t), n)
  {
    OutGroup(EdgeStream(ts + [t]), n);
    OutGroup(EdgeStream(ts), n);
    EdgeStreamSnoc(ts, t);
    EdgesFromAppend(EdgeStream(ts), TickerEdges(t), n);
  }

  /** The edges out of `n` in the graph of one ticker. */
  lemma OutOfOne(t: Ticker, n: string)
    ensures Out(GraphOf([t]), n) == EdgesFrom(TickerEdges(t), n)
  {
    OutOfNone(n);
    OutOfSnoc([], t, n);
    assert [] + [t] == [t];
  }

  /** The edges out of `n` in the graph of two tickers: the first one's, then the second one's. */
  lemma OutOfPair(t1: Ticker, t2: Ticker, n: string)
    ensures Out(GraphOf([t1, t2]), n) == EdgesFrom(TickerEdges(t1), n) + EdgesFrom(TickerEdges(t2), n)
  {
    OutOfOne(t1, n);
    OutOfSnoc([t1], t2, n);
    assert [t1] + [t2] == [t1, t2];
  }

  /** The edges out of `n` in the graph of three tickers, in ticker order. */
  lemma OutOfTriple(t1: Ticker, t2: Ticker, t3: Ticker, n: string)
    ensures Out(GraphOf([t1, t2, t3]), n) ==
      EdgesFrom(TickerEdges(t1), n) + EdgesFrom(TickerEdges(t2), n) + EdgesFrom(TickerEdges(t3), n)
  {
    OutOfPair(t1, t2, n);
    OutOfSnoc([t1, t2], t3, n);
    assert [t1, t2] + [t3] == [t1, t2, t3];
  }

  /** The edges the BTC-CLP ticker contributes out of BTC, CLP, ETH and DOGE. */
  lemma BtcClpEdges()
    ensures var t := Ticker("BTC-CLP", "BTC", "CLP", 80000000.0);
      && EdgesFrom(TickerEdges(t), "BTC") == [Edge("CLP", 80000000.0)]
      && EdgesFrom(TickerEdges(t), "CLP") == [Edge("BTC", Reciprocal(80000000.0))]
      && EdgesFrom(TickerEdges(t), "ETH") == []
      && EdgesFrom(TickerEdges(t), "DOGE") == []
  {
    var t := Ticker("BTC-CLP", "BTC", "CLP", 80000000.0);
    UpperExamples();
    assert "CLP" != "BTC" && "ETH" != "BTC" && "ETH" != "CLP" && "DOGE" != "BTC" && "DOGE" != "CLP" by {
      assert "CLP"[0] != "BTC"[0] && "ETH"[0] != "BTC"[0] && "ETH"[0] != "CLP"[0];
      assert "DOGE"[0] != "BTC"[0] && "DOGE"[0] != "CLP"[0];
    }
    var e := TickerEdges(t);
    assert e == [("BTC", Edge("CLP", 80000000.0)), ("CLP", Edge("BTC", Reciprocal(80000000.0)))];
    EdgesFromPair(e[0], e[1], "BTC");
    EdgesFromPair(e[0], e[1], "CLP");
    EdgesFromPair(e[0], e[1], "ETH");
    EdgesFromPair(e[0], e[1], "DOGE");
  }

  /** The graph of BTC-CLP at 80000000, read from BTC, CLP, ETH and DOGE. */
  lemma SingleTickerGraph()
    ensures var g := GraphOf([Ticker("BTC-CLP", "BTC", "CLP", 80000000.0)]);
      && Out(g, "BTC") == [Edge("CLP", 80000000.0)]
      && Out(g, "CLP") == [Edge("BTC", Reciprocal(80000000.0))]
      && Out(g, "ETH") == []
      && Out(g, "DOGE") == []
  {
    var t := Ticker("BTC-CLP", "BTC", "CLP", 80000000.0);
    BtcClpEdges();
    OutOfOne(t, "BTC");
    OutOfOne(t, "CLP");
    OutOfOne(t, "ETH");
    OutOfOne(t, "DOGE");
  }

  /** BTC at 80000000 CLP: BTC is priced directly, CLP back to BTC at the reciprocal. */
  lemma SingleTickerExample()
    ensures var g := GraphOf([Ticker("BTC-CLP", "BTC", "CLP", 80000000.0)]);
      && Rate(g, "btc", "clp") == Some(80000000.0)
      && Rate(g, "CLP", "BTC") == Some(Reciprocal(80000000.0))
      && Rate(g, "BTC", "ETH") == None
  {
    var g := GraphOf([Ticker("BTC-CLP", "BTC", "CLP", 80000000.0)]);
    UpperExamples();
    SingleTickerGraph();
    assert "CLP" != "BTC" && "ETH" != "BTC" && "ETH" != "CLP" by {
      assert "CLP"[0] != "BTC"[0] && "ETH"[0] != "BTC"[0] && "ETH"[0] != "CLP"[0];
    }
    assert FirstRateTo(Out(g, "CLP"), "ETH") == None;
    assert Out(g, "BTC")[1..] == [];
    assert FirstTwoHop(g, Out(g, "BTC"), "ETH") == None;
  }

  /** The edges the ETH-BTC and BTC-CLP tickers contribute out of ETH and out of BTC. */
  lemma EthBtcClpEdges()
    ensures var t1, t2 := Ticker("ETH-BTC", "ETH", "BTC", 0.033), Ticker("BTC-CLP", "BTC", "CLP", 80000000.0);
      && EdgesFrom(TickerEdges(t1), "ETH") == [Edge("BTC", 0.033)]
      && EdgesFrom(TickerEdges(t1), "BTC") == [Edge("ETH", Reciprocal(0.033))]
      && EdgesFrom(TickerEdges(t2), "ETH") == []
      && EdgesFrom(TickerEdges(t2), "BTC") == [Edge("CLP", 80000000.0)]
  {
    var t1 := Ticker("ETH-BTC", "ETH", "BTC", 0.033);
    UpperExamples();
    assert "CLP" != "BTC" && "ETH" != "BTC" by {
      assert "CLP"[0] != "BTC"[0] && "ETH"[0] != "BTC"[0];
    }
    var e1 := TickerEdges(t1);
    assert e1 == [("ETH", Edge("BTC", 0.033)), ("BTC", Edge("ETH", Reciprocal(0.033)))];
    EdgesFromPair(e1[0], e1[1], "ETH");
    EdgesFromPair(e1[0], e1[1], "BTC");
    BtcClpEdges();
  }

  /** The graph of ETH-BTC at 0.033 followed by BTC-CLP at 80000000, as read from ETH. */
  lemma EthBtcClpGraph()
    ensures var g := GraphOf([Ticker("ETH-BTC", "ETH", "BTC", 0.033), Ticker("BTC-CLP", "BTC", "CLP", 80000000.0)]);
      && Out(g, "ETH") == [Edge("BTC", 0.033)]
      && Out(g, "BTC") == [Edge("ETH", Reciprocal(0.033)), Edge("CLP", 80000000.0)]
  {
    var t1, t2 := Ticker("ETH-BTC", "ETH", "BTC", 0.033), Ticker("BTC-CLP", "BTC", "CLP", 80000000.0);
    EthBtcClpEdges();
    OutOfPair(t1, t2, "ETH");
    OutOfPair(t1, t2, "BTC");
    assert [Edge("BTC", 0.033)] + [] == [Edge("BTC", 0.033)];
  }

  /** A source whose only edge leads to a currency with an edge into the target: the two rates chained. */
  lemma RateSingleRoute(g: Graph, src: string, mid: string, dst: string, r1: real, r2: real)
    requires Upper(src) == src && Upper(dst) == dst && src != dst && mid != dst
    requires Out(g, src) == [Edge(mid, r1)]
    requires FirstRateTo(Out(g, mid), dst) == Some(r2)
    ensures Rate(g, src, dst) == Some(Chain(r1, r2))
  {
    assert Out(g, src)[0].to != dst;
    assert Out(g, src)[1..] == [];
  }

  /** ETH at 0.033 BTC and BTC at 80000000 CLP: one ETH is worth 2640000 CLP via BTC. */
  lemma TwoHopExample()
    ensures var g := GraphOf([Ticker("ETH-BTC", "ETH", "BTC", 0.033), Ticker("BTC-CLP", "BTC", "CLP", 80000000.0)]);
      Rate(g, "eth", "clp") == Some(2640000.0)
  {
    EthBtcClpGraph();
    EthToClp(GraphOf([Ticker("ETH-BTC", "ETH", "BTC", 0.033), Ticker("BTC-CLP", "BTC", "CLP", 80000000.0)]));
  }

  /** Any graph in which ETH leads only to BTC at 0.033 and BTC reaches CLP second, at 80000000. */
  lemma EthToClp(g: Graph)
    requires Out(g, "ETH") == [Edge("BTC", 0.033)]
    requires Out(g, "BTC") == [Edge("ETH", Reciprocal(0.033)), Edge("CLP", 80000000.0)]
    ensures Rate(g, "eth", "clp") == Some(2640000.0)
  {
    UpperExamples();
    assert "ETH" != "CLP" && "BTC" != "CLP" by {
      assert "ETH"[0] != "CLP"[0] && "BTC"[0] != "CLP"[0];
    }
    var mid := Out(g, "BTC");
    assert FirstTo(mid, "CLP", 1) by {
      assert mid[0].to != "CLP";
    }
    RateSingleRoute(g, "ETH", "BTC", "CLP", 0.033, 80000000.0);
    RateCaseInsensitive(g, "eth", "clp");
    assert Chain(0.033, 80000000.0) == 2640000.0;
  }

  /** The edges the A-B, B-C and C-D tickers contribute out of A and out of B. */
  lemma ChainEdges()
    ensures var t1, t2, t3 := Ticker("A-B", "A", "B", 2.0), Ticker("B-C", "B", "C", 3.0), Ticker("C-D", "C", "D", 5.0);
      && EdgesFrom(TickerEdges(t1), "A") == [Edge("B", 2.0)]
      && EdgesFrom(TickerEdges(t1), "B") == [Edge("A", Reciprocal(2.0))]
      && EdgesFrom(TickerEdges(t2), "A") == []
      && EdgesFrom(TickerEdges(t2), "B") == [Edge("C", 3.0)]
      && EdgesFrom(TickerEdges(t3), "A") == []
      && EdgesFrom(TickerEdges(t3), "B") == []
  {
    var t1, t2, t3 := Ticker("A-B", "A", "B", 2.0), Ticker("B-C", "B", "C", 3.0), Ticker("C-D", "C", "D", 5.0);
    assert Upper("A") == "A" && Upper("B") == "B" && Upper("C") == "C" && Upper("D") == "D";
    var e1, e2, e3 := TickerEdges(t1), TickerEdges(t2), TickerEdges(t3);
    assert e1 == [("A", Edge("B", 2.0)), ("B", Edge("A", Reciprocal(2.0)))];
    assert e2 == [("B", Edge("C", 3.0)), ("C", Edge("B", Reciprocal(3.0)))];
    assert e3 == [("C", Edge("D", 5.0)), ("D", Edge("C", Reciprocal(5.0)))];
    EdgesFromPair(e1[0], e1[1], "A");
    EdgesFromPair(e1[0], e1[1], "B");
    EdgesFromPair(e2[0], e2[1], "A");
    EdgesFromPair(e2[0], e2[1], "B");
    EdgesFromPair(e3[0], e3[1], "A");
    EdgesFromPair(e3[0], e3[1], "B");
  }

  /** The graph of A-B at 2, B-C at 3 and C-D at 5, as read from A and from B. */
  lemma ChainGraph()
    ensures var g := GraphOf([Ticker("A-B", "A", "B", 2.0), Ticker("B-C", "B", "C", 3.0), Ticker("C-D", "C", "D", 5.0)]);
      && Out(g, "A") == [Edge("B", 2.0)]
      && Out(g, "B") == [Edge("A", Reciprocal(2.0)), Edge("C", 3.0)]
  {
    var t1, t2, t3 := Ticker("A-B", "A", "B", 2.0), Ticker("B-C", "B", "C", 3.0), Ticker("C-D", "C", "D", 5.0);
    ChainEdges();
    OutOfTripleIs(t1, t2, t3, "A", [Edge("B", 2.0)], [], []);
    OutOfTripleIs(t1, t2, t3, "B", [Edge("A", Reciprocal(2.0))], [Edge("C", 3.0)], []);
  }

  /** `OutOfTriple` with each ticker's contribution named. */
  lemma OutOfTripleIs(t1: Ticker, t2: Ticker, t3: Ticker, n: string, x1: seq<Edge>, x2: seq<Edge>, x3: seq<Edge>)
    requires EdgesFrom(TickerEdges(t1), n) == x1 && EdgesFrom(TickerEdges(t2), n) == x2 && EdgesFrom(TickerEdges(t3), n) == x3
    ensures Out(GraphOf([t1, t2, t3]), n) == x1 + x2 + x3
  {
    OutOfTriple(t1, t2, t3, n);
  }

  /** A-B, B-C, C-D: D is three hops from A, so there is no answer; C is two hops away. */
  lemma ThreeHopsExample()
    ensures var g := GraphOf([Ticker("A-B", "A", "B", 2.0), Ticker("B-C", "B", "C", 3.0), Ticker("C-D", "C", "D", 5.0)]);
      && Rate(g, "A", "D") == None
      && Rate(g, "A", "C") == Some(6.0)
  {
    ChainGraph();
    ChainRates(GraphOf([Ticker("A-B", "A", "B", 2.0), Ticker("B-C", "B", "C", 3.0), Ticker("C-D", "C", "D", 5.0)]));
  }

  /** Any graph in which A leads only to B at 2 and B to A and then C at 3. */
  lemma ChainRates(g: Graph)
    requires Out(g, "A") == [Edge("B", 2.0)]
    requires Out(g, "B") == [Edge("A", Reciprocal(2.0)), Edge("C", 3.0)]
    ensures Rate(g, "A", "D") == None
    ensures Rate(g, "A", "C") == Some(6.0)
  {
    assert Upper("A") == "A" && Upper("C") == "C" && Upper("D") == "D";
    var mid := Out(g, "B");
    assert FirstRateTo(mid, "D") == None;
    assert Out(g, "A")[1..] == [];
    assert FirstTwoHop(g, Out(g, "A"), "D") == None;
    assert FirstTo(mid, "C", 1) by {
      assert mid[0].to != "C";
    }
    RateSingleRoute(g, "A", "B", "C", 2.0, 3.0);
    assert Chain(2.0, 3.0) == 6.0;
  }
}
