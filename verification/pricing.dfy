/**
 * The pricing engine: the conversion graph built from tickers, and the breadth-first
 * search for a conversion rate of at most two hops.
 *
 * Rates are exact reals: the 28-digit rounding of Python's `Decimal` context is not
 * modelled.
 */
module Pricing {
  import opened Wrappers
  import opened Ascii
  import opened BudaClient

  /** One unit of the source currency is worth `rate` units of `to`. */
  datatype Edge = Edge(to: string, rate: real)

  /** Outgoing edges of each currency, in insertion order. */
  type Graph = map<string, seq<Edge>>

  /** `graph.get(node, [])`. */
  function Out(g: Graph, n: string): seq<Edge>
  {
    if n in g then g[n] else []
  }

  /** The inner `add_edge`: `graph.setdefault(from, []).append(Edge(to, rate))`. */
  function AddEdge(g: Graph, from: string, to: string, rate: real): (r: Graph)
    ensures Out(r, from) == Out(g, from) + [Edge(to, rate)]
    ensures forall n :: n != from ==> Out(r, n) == Out(g, n)
    ensures r.Keys == g.Keys + {from}
  {
    g[from := Out(g, from) + [Edge(to, rate)]]
  }

  // ---------------------------------------------------------------------------
  // build_graph
  // ---------------------------------------------------------------------------

  /** The rate of the inverse conversion, `Decimal("1") / p`. */
  function Reciprocal(p: real): real
    requires p != 0.0
  {
    1.0 / p
  }

  /**
   * The edges one ticker contributes, each with its source currency: none for a price
   * that is not positive, else base->quote at the price and quote->base at its reciprocal.
   */
  function TickerEdges(t: Ticker): seq<(string, Edge)>
  {
    if t.lastPrice <= 0.0 then []
    else
      var base, quote := Upper(t.base), Upper(t.quote);
      [(base, Edge(quote, t.lastPrice)), (quote, Edge(base, Reciprocal(t.lastPrice)))]
  }

  /** All edges of the tickers, in the order they are added. */
  function EdgeStream(ts: seq<Ticker>): seq<(string, Edge)>
  {
    if |ts| == 0 then [] else EdgeStream(ts[..|ts| - 1]) + TickerEdges(ts[|ts| - 1])
  }

  /** The edges of stream `s` whose source is `n`, in stream order. */
  function EdgesFrom(s: seq<(string, Edge)>, n: string): seq<Edge>
  {
    if |s| == 0 then []
    else EdgesFrom(s[..|s| - 1], n) + (if s[|s| - 1].0 == n then [s[|s| - 1].1] else [])
  }

  /** The source currencies of stream `s`. */
  function Sources(s: seq<(string, Edge)>): set<string>
  {
    set i | 0 <= i < |s| :: s[i].0
  }

  /** A stream grouped by source: every source maps to its edges in stream order. */
  function Group(s: seq<(string, Edge)>): Graph
  {
    map n | n in Sources(s) :: EdgesFrom(s, n)
  }

  /** The edges the tickers `ts` add out of currency `n`, in the order they add them. */
  function EdgesOutOf(ts: seq<Ticker>, n: string): seq<Edge>
  {
    EdgesFrom(EdgeStream(ts), n)
  }

  /**
   * The conversion graph of a ticker sequence: each currency's list holds exactly the
   * edges the tickers add out of it, in the order they add them.
   */
  function GraphOf(ts: seq<Ticker>): (r: Graph)
    ensures forall n {:trigger EdgesOutOf(ts, n)} :: Out(r, n) == EdgesOutOf(ts, n)
  {
    OutGroupAll(EdgeStream(ts));
    Group(EdgeStream(ts))
  }

  lemma {:induction false} EdgesFromNone(s: seq<(string, Edge)>, n: string)
    requires n !in Sources(s)
    ensures EdgesFrom(s, n) == []
  {
    if |s| > 0 {
      var m := |s| - 1;
      assert Sources(s[..m]) <= Sources(s) by {
        forall k | k in Sources(s[..m]) ensures k in Sources(s) {
          var i :| 0 <= i < m && s[..m][i].0 == k;
          assert s[i].0 == k;
        }
      }
      EdgesFromNone(s[..m], n);
    }
  }

  /** Looking up a grouped stream gives the edges from that source. */
  lemma OutGroup(s: seq<(string, Edge)>, n: string)
    ensures Out(Group(s), n) == EdgesFrom(s, n)
  {
    if n !in Sources(s) {
      EdgesFromNone(s, n);
    }
  }

  lemma OutGroupAll(s: seq<(string, Edge)>)
    ensures forall n :: Out(Group(s), n) == EdgesFrom(s, n)
  {
    forall n ensures Out(Group(s), n) == EdgesFrom(s, n) {
      OutGroup(s, n);
    }
  }

  /** Appending one edge to the stream is one `add_edge` on the grouped graph. */
  lemma GroupSnoc(s: seq<(string, Edge)>, x: (string, Edge))
    ensures Group(s + [x]) == AddEdge(Group(s), x.0, x.1.to, x.1.rate)
  {
    var s' := s + [x];
    assert s'[..|s|] == s;
    var g, g' := AddEdge(Group(s), x.0, x.1.to, x.1.rate), Group(s');
    assert Sources(s') == Sources(s) + {x.0} by {
      forall k | k in Sources(s') ensures k in Sources(s) + {x.0} {
        var i :| 0 <= i < |s'| && s'[i].0 == k;
        if i < |s| { assert s[i] == s'[i]; }
      }
      forall k | k in Sources(s) ensures k in Sources(s') {
        var i :| 0 <= i < |s| && s[i].0 == k;
        assert s'[i] == s[i];
      }
      assert s'[|s|] == x;
    }
    forall n | n in g'
      ensures g'[n] == g[n]
    {
      OutGroup(s, n);
    }
  }

  lemma EdgeStreamSnoc(ts: seq<Ticker>, t: Ticker)
    ensures EdgeStream(ts + [t]) == EdgeStream(ts) + TickerEdges(t)
  {
    assert (ts + [t])[..|ts|] == ts;
  }

  /** Adding one more ticker adds exactly its two edges, or nothing for a non-positive price. */
  lemma GraphOfSnoc(ts: seq<Ticker>, t: Ticker)
    ensures t.lastPrice <= 0.0 ==> GraphOf(ts + [t]) == GraphOf(ts)
    ensures t.lastPrice > 0.0 ==>
      var base, quote := Upper(t.base), Upper(t.quote);
      GraphOf(ts + [t]) == AddEdge(AddEdge(GraphOf(ts), base, quote, t.lastPrice), quote, base, Reciprocal(t.lastPrice))
  {
    EdgeStreamSnoc(ts, t);
    var s := EdgeStream(ts);
    if t.lastPrice > 0.0 {
      var e := TickerEdges(t);
      assert s + e == (s + [e[0]]) + [e[1]];
      GroupSnoc(s, e[0]);
      GroupSnoc(s + [e[0]], e[1]);
    } else {
      assert s + [] == s;
    }
  }

  /**
   * `build_graph`: for each ticker of the table with a positive price, in the table's
   * insertion order, append base->quote at the price and quote->base at its reciprocal,
   * currency symbols upper-cased.
   */
  method BuildGraph(tickers: TickerTable) returns (graph: Graph)
    requires WellFormed(tickers)
    ensures graph == GraphOf(Values(tickers))
  {
    var values := Values(tickers);
    graph := map[];
    ghost var done: seq<Ticker> := [];
    for k := 0 to |values|
      invariant done == values[..k]
      invariant graph == GraphOf(done)
    {
      var t := values[k];
      GraphOfSnoc(done, t);
      assert values[..k + 1] == done + [t];
      done := done + [t];
      if t.lastPrice <= 0.0 {
        continue;
      }
      var base := Upper(t.base);
      var quote := Upper(t.quote);
      var p := t.lastPrice;
      graph := AddEdge(graph, base, quote, p);
      graph := AddEdge(graph, quote, base, Reciprocal(p));
    }
    assert values[..|values|] == values;
  }

  // ---------------------------------------------------------------------------
  // find_rate_max_2_hops: the reference definition
  // ---------------------------------------------------------------------------

  /** The rate of converting along two edges in turn: the product of their rates. */
  function Chain(r1: real, r2: real): real
  {
    r1 * r2
  }

  /** `i` is the first position in `edges` of an edge into `dst`. */
  predicate FirstTo(edges: seq<Edge>, dst: string, i: nat)
  {
    && i < |edges|
    && edges[i].to == dst
    && forall j :: 0 <= j < i ==> edges[j].to != dst
  }

  /** The rate of the first edge into `dst`, if any. */
  function FirstRateTo(edges: seq<Edge>, dst: string): (r: Option<real>)
    ensures r.None? <==> forall i :: 0 <= i < |edges| ==> edges[i].to != dst
    ensures forall i: nat :: FirstTo(edges, dst, i) ==> r == Some(edges[i].rate)
  {
    if |edges| == 0 then None
    else if edges[0].to == dst then Some(edges[0].rate)
    else
      var r := FirstRateTo(edges[1..], dst);
      assert forall i: nat :: FirstTo(edges, dst, i) ==> i > 0 && FirstTo(edges[1..], dst, i - 1);
      r
  }

  /**
   * Two hops through the first of `edges` (in order) whose target has an edge into `dst`:
   * the product of that edge's rate and the rate of the target's first edge into `dst`.
   */
  function FirstTwoHop(g: Graph, edges: seq<Edge>, dst: string): Option<real>
  {
    if |edges| == 0 then None
    else
      var hit := FirstRateTo(Out(g, edges[0].to), dst);
      if hit.Some? then Some(Chain(edges[0].rate, hit.value)) else FirstTwoHop(g, edges[1..], dst)
  }

  /**
   * The rate `find_rate_max_2_hops` answers: 1 for the same symbol after upper-casing;
   * else the first direct edge's rate; else the first two-hop path in edge order.
   */
  function Rate(g: Graph, currency1: string, currency2: string): (r: Option<real>)
    ensures Upper(currency1) == Upper(currency2) ==> r == Some(1.0)
  {
    var src, dst := Upper(currency1), Upper(currency2);
    if src == dst then Some(1.0)
    else
      var direct := FirstRateTo(Out(g, src), dst);
      if direct.Some? then direct else FirstTwoHop(g, Out(g, src), dst)
  }

  // ---------------------------------------------------------------------------
  // find_rate_max_2_hops: the search
  // ---------------------------------------------------------------------------

  /** A queue entry `(node, rate_so_far, depth)`. */
  datatype Visit = Visit(node: string, rate: real, depth: nat)

  /** The targets of `edges`. */
  function Targets(edges: seq<Edge>): set<string>
  {
    set i | 0 <= i < |edges| :: edges[i].to
  }

  lemma TargetsSnoc(edges: seq<Edge>, e: Edge)
    ensures Targets(edges + [e]) == Targets(edges) + {e.to}
  {
    var s := edges + [e];
    forall k | k in Targets(s) ensures k in Targets(edges) + {e.to} {
      var i :| 0 <= i < |s| && s[i].to == k;
      if i < |edges| { assert edges[i] == s[i]; }
    }
    forall k | k in Targets(edges) ensures k in Targets(s) {
      var i :| 0 <= i < |edges| && edges[i].to == k;
      assert s[i] == edges[i];
    }
    assert s[|edges|] == e;
  }

  /**
   * The depth-1 queue entries that expanding the source enqueues: one per distinct target,
   * in order of first occurrence, with the rate of the first edge to it.
   */
  function Level1(edges: seq<Edge>): (r: seq<Visit>)
    ensures forall i :: 0 <= i < |r| ==> r[i].depth == 1
  {
    if |edges| == 0 then []
    else
      var pre, e := edges[..|edges| - 1], edges[|edges| - 1];
      if e.to in Targets(pre) then Level1(pre) else Level1(pre) + [Visit(e.to, e.rate, 1)]
  }

  /** The first two-hop hit when expanding the depth-1 entries `items` in order. */
  function TwoHopItems(g: Graph, items: seq<Visit>, dst: string): Option<real>
  {
    if |items| == 0 then None
    else
      var hit := FirstRateTo(Out(g, items[0].node), dst);
      if hit.Some? then Some(Chain(items[0].rate, hit.value)) else TwoHopItems(g, items[1..], dst)
  }

  lemma {:induction false} TwoHopItemsAppend(g: Graph, p: seq<Visit>, q: seq<Visit>, dst: string)
    ensures TwoHopItems(g, p + q, dst) == if TwoHopItems(g, p, dst).Some? then TwoHopItems(g, p, dst) else TwoHopItems(g, q, dst)
  {
    if |p| > 0 {
      assert (p + q)[0] == p[0] && (p + q)[1..] == p[1..] + q;
      var hit := FirstRateTo(Out(g, p[0].node), dst);
      if hit.None? {
        TwoHopItemsAppend(g, p[1..], q, dst);
        assert TwoHopItems(g, p, dst) == TwoHopItems(g, p[1..], dst);
        assert TwoHopItems(g, p + q, dst) == TwoHopItems(g, p[1..] + q, dst);
      } else {
        assert TwoHopItems(g, p, dst) == Some(Chain(p[0].rate, hit.value));
        assert TwoHopItems(g, p + q, dst) == Some(Chain(p[0].rate, hit.value));
      }
    } else {
      assert p + q == q;
    }
  }

  lemma {:induction false} FirstTwoHopAppend(g: Graph, p: seq<Edge>, q: seq<Edge>, dst: string)
    ensures FirstTwoHop(g, p + q, dst) == if FirstTwoHop(g, p, dst).Some? then FirstTwoHop(g, p, dst) else FirstTwoHop(g, q, dst)
  {
    if |p| > 0 {
      assert (p + q)[0] == p[0] && (p + q)[1..] == p[1..] + q;
      var hit := FirstRateTo(Out(g, p[0].to), dst);
      if hit.None? {
        FirstTwoHopAppend(g, p[1..], q, dst);
        assert FirstTwoHop(g, p, dst) == FirstTwoHop(g, p[1..], dst);
        assert FirstTwoHop(g, p + q, dst) == FirstTwoHop(g, p[1..] + q, dst);
      } else {
        assert FirstTwoHop(g, p, dst) == Some(Chain(p[0].rate, hit.value));
        assert FirstTwoHop(g, p + q, dst) == Some(Chain(p[0].rate, hit.value));
      }
    } else {
      assert p + q == q;
    }
  }

  /** When no two-hop path starts among `edges`, no target of them has an edge into `dst`. */
  lemma {:induction false} FirstTwoHopNone(g: Graph, edges: seq<Edge>, dst: string, i: nat)
    requires FirstTwoHop(g, edges, dst).None? && i < |edges|
    ensures FirstRateTo(Out(g, edges[i].to), dst).None?
  {
    var hit := FirstRateTo(Out(g, edges[0].to), dst);
    if i > 0 {
      var rest := edges[1..];
      assert hit.None? && FirstTwoHop(g, rest, dst).None?;
      FirstTwoHopNone(g, rest, dst, i - 1);
      assert rest[i - 1] == edges[i];
    }
  }

  /**
   * Expanding the deduplicated depth-1 entries finds the same path as scanning all of the
   * source's edges: dropping a repeated target never drops an answer.
   */
  lemma {:induction false} Level1Search(g: Graph, edges: seq<Edge>, dst: string)
    ensures TwoHopItems(g, Level1(edges), dst) == FirstTwoHop(g, edges, dst)
  {
    if |edges| > 0 {
      var pre, e := edges[..|edges| - 1], edges[|edges| - 1];
      assert edges == pre + [e];
      Level1Search(g, pre, dst);
      FirstTwoHopAppend(g, pre, [e], dst);
      if e.to in Targets(pre) {
        Level1SearchRepeat(g, pre, e, dst);
      } else {
        Level1SearchNew(g, pre, e, dst);
      }
    }
  }

  /** An edge to a target seen before adds nothing to the two-hop search. */
  lemma Level1SearchRepeat(g: Graph, pre: seq<Edge>, e: Edge, dst: string)
    requires e.to in Targets(pre)
    ensures FirstTwoHop(g, pre, dst).Some? || FirstTwoHop(g, [e], dst).None?
  {
    if FirstTwoHop(g, pre, dst).None? {
      var i :| 0 <= i < |pre| && pre[i].to == e.to;
      FirstTwoHopNone(g, pre, dst, i);
      assert [e][1..] == [];
    }
  }

  /** An edge to a new target searches exactly as its depth-1 entry does. */
  lemma Level1SearchNew(g: Graph, pre: seq<Edge>, e: Edge, dst: string)
    ensures var v := Visit(e.to, e.rate, 1);
      TwoHopItems(g, Level1(pre) + [v], dst) ==
        if TwoHopItems(g, Level1(pre), dst).Some? then TwoHopItems(g, Level1(pre), dst) else FirstTwoHop(g, [e], dst)
  {
    var v := Visit(e.to, e.rate, 1);
    TwoHopItemsAppend(g, Level1(pre), [v], dst);
    assert [v][1..] == [] && [e][1..] == [];
    assert TwoHopItems(g, [v], dst) == FirstTwoHop(g, [e], dst);
  }

  /** Expanding one more depth-1 entry without a hit keeps the search without an answer. */
  lemma Level1Miss(g: Graph, l: seq<Visit>, k: nat, dst: string)
    requires k < |l| && TwoHopItems(g, l[..k], dst).None?
    requires FirstRateTo(Out(g, l[k].node), dst).None?
    ensures TwoHopItems(g, l[..k + 1], dst).None?
  {
    assert l[..k + 1] == l[..k] + [l[k]];
    TwoHopItemsAppend(g, l[..k], [l[k]], dst);
  }

  /**
   * Without a direct edge, the first depth-1 entry (in queue order) with an edge into the
   * target decides the rate: the product of its rate and that entry's first edge's rate.
   */
  lemma RateViaLevel1(g: Graph, currency1: string, currency2: string, k: nat)
    requires Upper(currency1) != Upper(currency2)
    requires FirstRateTo(Out(g, Upper(currency1)), Upper(currency2)).None?
    requires var l := Level1(Out(g, Upper(currency1)));
      k < |l| && TwoHopItems(g, l[..k], Upper(currency2)).None? && FirstRateTo(Out(g, l[k].node), Upper(currency2)).Some?
    ensures var l := Level1(Out(g, Upper(currency1)));
      Rate(g, currency1, currency2) == Some(Chain(l[k].rate, FirstRateTo(Out(g, l[k].node), Upper(currency2)).value))
  {
    var src, dst := Upper(currency1), Upper(currency2);
    TwoHopItemsAt(g, Level1(Out(g, src)), k, dst);
    Level1Search(g, Out(g, src), dst);
    assert Rate(g, currency1, currency2) == FirstTwoHop(g, Out(g, src), dst);
  }

  /** The first of `l` with an edge into `dst` decides the search over `l`. */
  lemma TwoHopItemsAt(g: Graph, l: seq<Visit>, k: nat, dst: string)
    requires k < |l| && TwoHopItems(g, l[..k], dst).None?
    requires FirstRateTo(Out(g, l[k].node), dst).Some?
    ensures TwoHopItems(g, l, dst) == Some(Chain(l[k].rate, FirstRateTo(Out(g, l[k].node), dst).value))
  {
    TwoHopItemsAppend(g, l[..k], l[k..], dst);
    assert l == l[..k] + l[k..];
    assert l[k..][0] == l[k];
  }

  /** A source without edges has no rate to any other symbol. */
  lemma NoEdgesNoRate(g: Graph, currency1: string, currency2: string)
    requires Upper(currency1) != Upper(currency2) && Out(g, Upper(currency1)) == []
    ensures Rate(g, currency1, currency2).None?
  {
  }

  /** When neither a direct edge nor any depth-1 entry reaches the target, there is no rate. */
  lemma RateNoRoute(g: Graph, currency1: string, currency2: string)
    requires Upper(currency1) != Upper(currency2)
    requires FirstRateTo(Out(g, Upper(currency1)), Upper(currency2)).None?
    requires TwoHopItems(g, Level1(Out(g, Upper(currency1))), Upper(currency2)).None?
    ensures Rate(g, currency1, currency2).None?
  {
    Level1Search(g, Out(g, Upper(currency1)), Upper(currency2));
  }

  /** A visited-set key: a node together with the depth at which it was reached. */
  type Key = (string, int)

  /**
   * The entries the inner loop enqueues, and the visited set it leaves, when it expands
   * `v` over `edges` without meeting the target: each edge whose `(target, depth + 1)` is
   * not yet visited enqueues its target with the product rate and marks that key visited.
   */
  function Enqueue(edges: seq<Edge>, v: Visit, visited: set<Key>): (r: (seq<Visit>, set<Key>))
    ensures forall i :: 0 <= i < |r.0| ==> r.0[i].depth == v.depth + 1
    ensures visited <= r.1
  {
    if |edges| == 0 then ([], visited)
    else
      var pre, e := edges[..|edges| - 1], edges[|edges| - 1];
      var r := Enqueue(pre, v, visited);
      var key := (e.to, v.depth + 1);
      if key in r.1 then r else (r.0 + [Visit(e.to, Chain(v.rate, e.rate), v.depth + 1)], r.1 + {key})
  }

  /** Expanding the source enqueues exactly `Level1`, and marks exactly its targets at depth 1. */
  lemma {:induction false} EnqueueFromSource(edges: seq<Edge>, src: string)
    ensures Enqueue(edges, Visit(src, 1.0, 0), {(src, 0)}).0 == Level1(edges)
    ensures forall n :: (n, 1) in Enqueue(edges, Visit(src, 1.0, 0), {(src, 0)}).1 <==> n in Targets(edges)
  {
    if |edges| > 0 {
      var pre, e := edges[..|edges| - 1], edges[|edges| - 1];
      EnqueueFromSource(pre, src);
      assert edges == pre + [e];
      TargetsSnoc(pre, e);
      assert Chain(1.0, e.rate) == e.rate;
    }
  }

  /** The visited-set key of a queue entry. */
  function KeyOf(v: Visit): Key
  {
    (v.node, v.depth)
  }

  /**
   * What the search has put into its queue so far, `log`, in order: the keys of its
   * entries are exactly the visited ones, none occurs twice, and every depth is 0, 1 or 2.
   */
  ghost predicate History(visited: set<Key>, log: seq<Visit>)
    decreases |log|
  {
    if |log| == 0 then visited == {}
    else
      var v := log[|log| - 1];
      && KeyOf(v) in visited
      && v.depth <= 2
      && History(visited - {KeyOf(v)}, log[..|log| - 1])
  }

  /** The history, read back: its keys are the visited ones, distinct, at depth 0 to 2. */
  lemma {:induction false} HistoryFacts(visited: set<Key>, log: seq<Visit>)
    requires History(visited, log)
    ensures visited == LogKeys(log)
    ensures forall i, j :: 0 <= i < j < |log| ==> KeyOf(log[i]) != KeyOf(log[j])
    ensures forall i :: 0 <= i < |log| ==> log[i].depth <= 2
  {
    if |log| > 0 {
      var m := |log| - 1;
      var v := log[m];
      HistoryFacts(visited - {KeyOf(v)}, log[..m]);
      assert log == log[..m] + [v];
      assert LogKeys(log) == LogKeys(log[..m]) + {KeyOf(v)} by {
        forall k | k in LogKeys(log) ensures k in LogKeys(log[..m]) + {KeyOf(v)} {
          var i :| 0 <= i < |log| && KeyOf(log[i]) == k;
          if i < m { assert log[..m][i] == log[i]; }
        }
        forall k | k in LogKeys(log[..m]) ensures k in LogKeys(log) {
          var i :| 0 <= i < m && KeyOf(log[..m][i]) == k;
          assert log[i] == log[..m][i];
        }
      }
    }
  }

  /** Logging an entry whose key is not yet visited extends the history. */
  lemma HistorySnoc(visited: set<Key>, log: seq<Visit>, v: Visit)
    requires History(visited, log) && KeyOf(v) !in visited && v.depth <= 2
    ensures History(visited + {KeyOf(v)}, log + [v])
  {
    assert (log + [v])[..|log|] == log;
    assert visited + {KeyOf(v)} - {KeyOf(v)} == visited;
  }

  /** `w` lies one edge beyond `u`: a target of `u.node`, one level deeper, at the chained rate. */
  ghost predicate Reaches(g: Graph, u: Visit, w: Visit)
  {
    && u.depth < 2
    && w.depth == u.depth + 1
    && exists e :: e in Out(g, u.node) && e.to == w.node && w.rate == Chain(u.rate, e.rate)
  }

  /**
   * What an expansion of `v` over some of its edges enqueues, read back: the log grows by
   * entries each one edge beyond `v` with keys not seen before, and every target of those
   * edges is visited one level deeper.
   */
  lemma {:induction false} EnqueueFacts(g: Graph, v: Visit, edges: seq<Edge>, visited: set<Key>, log: seq<Visit>)
    requires v.depth < 2 && History(visited, log)
    requires forall e :: e in edges ==> e in Out(g, v.node)
    ensures var r := Enqueue(edges, v, visited);
      && History(r.1, log + r.0)
      && (forall k :: 0 <= k < |r.0| ==> Reaches(g, v, r.0[k]))
      && (forall e :: e in edges ==> (e.to, v.depth + 1) in r.1)
  {
    if |edges| > 0 {
      var pre, e := edges[..|edges| - 1], edges[|edges| - 1];
      assert edges == pre + [e];
      EnqueueFacts(g, v, pre, visited, log);
      var r := Enqueue(pre, v, visited);
      var key := (e.to, v.depth + 1);
      if key !in r.1 {
        var w := Visit(e.to, Chain(v.rate, e.rate), v.depth + 1);
        assert e in Out(g, v.node) && Reaches(g, v, w);
        HistorySnoc(r.1, log + r.0, w);
        assert Enqueue(edges, v, visited) == (r.0 + [w], r.1 + {key});
        assert log + (r.0 + [w]) == (log + r.0) + [w];
        forall k | 0 <= k < |r.0 + [w]|
          ensures Reaches(g, v, (r.0 + [w])[k])
        {
          if k < |r.0| { assert (r.0 + [w])[k] == r.0[k]; }
        }
      }
    } else {
      assert log + [] == log;
    }
  }

  /** Appending entries that each lie one edge beyond `v` keeps the old log as a prefix. */
  lemma LogAppend(g: Graph, v: Visit, log: seq<Visit>, added: seq<Visit>)
    requires forall k :: 0 <= k < |added| ==> Reaches(g, v, added[k])
    ensures (log + added)[..|log|] == log
    ensures forall k :: |log| <= k < |log + added| ==> Reaches(g, v, (log + added)[k])
  {
    assert (log + added)[..|log|] == log;
    forall k | |log| <= k < |log + added|
      ensures Reaches(g, v, (log + added)[k])
    {
      assert (log + added)[k] == added[k - |log|];
    }
  }

  /**
   * The inner loop of `find_rate_max_2_hops`: walks the edges out of `v.node` in order;
   * at the first edge into `dst` it answers the product rate; otherwise it enqueues every
   * unvisited `(target, depth + 1)`, as `Enqueue` says. `log` records every entry put into
   * the queue: it grows by exactly what the queue grows by, each new entry one edge beyond
   * `v`, and after a miss every target of `v` is visited one level deeper.
   */
  method Expand(graph: Graph, v: Visit, dst: string, queue: seq<Visit>, visited: set<Key>, ghost log: seq<Visit>)
    returns (hit: Option<real>, queue1: seq<Visit>, visited1: set<Key>, ghost log1: seq<Visit>)
    requires v.depth < 2 && History(visited, log)
    ensures hit.None? <==> FirstRateTo(Out(graph, v.node), dst).None?
    ensures hit.Some? ==> hit.value == Chain(v.rate, FirstRateTo(Out(graph, v.node), dst).value)
    ensures hit.None? ==> queue1 == queue + Enqueue(Out(graph, v.node), v, visited).0
    ensures hit.None? ==> visited1 == Enqueue(Out(graph, v.node), v, visited).1
    ensures hit.None? ==> log1 == log + Enqueue(Out(graph, v.node), v, visited).0
    ensures hit.None? ==> Covered(graph, v, visited1)
    ensures History(visited1, log1) && visited <= visited1
    ensures |log| <= |log1| && log1[..|log|] == log
    ensures forall k :: |log| <= k < |log1| ==> Reaches(graph, v, log1[k])
  {
    var edges := Out(graph, v.node);
    queue1, visited1, log1 := queue, visited, log;
    var i := 0;
    while i < |edges|
      invariant 0 <= i <= |edges|
      invariant forall j :: 0 <= j < i ==> edges[j].to != dst
      invariant queue1 == queue + Enqueue(edges[..i], v, visited).0
      invariant visited1 == Enqueue(edges[..i], v, visited).1
      invariant log1 == log + Enqueue(edges[..i], v, visited).0
    {
      var edge := edges[i];
      var nextNode := edge.to;
      var nextRate := Chain(v.rate, edge.rate);
      var nextDepth := v.depth + 1;
      if nextNode == dst {
        assert FirstTo(edges, dst, i);
        EnqueueFacts(graph, v, edges[..i], visited, log);
        LogAppend(graph, v, log, Enqueue(edges[..i], v, visited).0);
        return Some(nextRate), queue1, visited1, log1;
      }
      var key := (nextNode, nextDepth);
      assert edges[..i + 1][..i] == edges[..i];
      if key !in visited1 {
        var w := Visit(nextNode, nextRate, nextDepth);
        visited1 := visited1 + {key};
        queue1 := queue1 + [w];
        log1 := log1 + [w];
      }
      i := i + 1;
    }
    assert edges[..i] == edges;
    EnqueueFacts(graph, v, edges, visited, log);
    LogAppend(graph, v, log, Enqueue(edges, v, visited).0);
    hit := None;
  }

  /** The entry at `i` lies one edge beyond some earlier entry. */
  ghost predicate ReachedBefore(g: Graph, log: seq<Visit>, i: int)
    requires 0 <= i < |log|
  {
    exists j :: 0 <= j < i && Reaches(g, log[j], log[i])
  }

  /** Every entry after the first lies one edge beyond some earlier entry. */
  ghost predicate Grown(g: Graph, log: seq<Visit>)
  {
    forall i :: 0 < i < |log| ==> ReachedBefore(g, log, i)
  }

  /** Entries appended one edge beyond a logged entry keep the log grown. */
  lemma GrownExtend(g: Graph, log: seq<Visit>, log1: seq<Visit>, p: nat)
    requires Grown(g, log) && p < |log| <= |log1| && log1[..|log|] == log
    requires forall k :: |log| <= k < |log1| ==> Reaches(g, log[p], log1[k])
    ensures Grown(g, log1)
  {
    forall i | 0 < i < |log1|
      ensures ReachedBefore(g, log1, i)
    {
      if i < |log| {
        assert ReachedBefore(g, log, i);
        var j :| 0 <= j < i && Reaches(g, log[j], log[i]);
        assert log1[j] == log[j] && log1[i] == log[i];
        assert 0 <= j < i && Reaches(g, log1[j], log1[i]);
      } else {
        assert log1[p] == log[p];
        assert 0 <= p < i && Reaches(g, log1[p], log1[i]);
      }
    }
  }

  /** The queue is the not-yet-expanded tail of the log. */
  ghost predicate QueueTail(queue: seq<Visit>, log: seq<Visit>)
  {
    |queue| <= |log| && queue == log[|log| - |queue|..]
  }

  /** Popping the head of the queue and appending `added` to both keeps the queue a tail of the log. */
  lemma QueueTailNext(queue: seq<Visit>, log: seq<Visit>, added: seq<Visit>)
    requires QueueTail(queue, log) && |queue| > 0
    ensures queue[0] == log[|log| - |queue|]
    ensures QueueTail(queue[1..] + added, log + added)
    ensures |log + added| - |queue[1..] + added| == |log| - |queue| + 1
  {
    var p := |log| - |queue|;
    assert queue[0] == log[p..][0];
    assert queue[1..] + added == (log + added)[p + 1..];
  }

  /** The keys one edge beyond `u`: each target of `u.node`, one level deeper. */
  function NextKeys(g: Graph, u: Visit): set<Key>
  {
    set e | e in Out(g, u.node) :: (e.to, u.depth + 1)
  }

  /** The keys of the entries of `log`. */
  function LogKeys(log: seq<Visit>): set<Key>
  {
    set i | 0 <= i < |log| :: KeyOf(log[i])
  }

  /** Every target of `u.node` is visited one level deeper than `u`. */
  ghost predicate Covered(g: Graph, u: Visit, visited: set<Key>)
  {
    forall e :: e in Out(g, u.node) ==> (e.to, u.depth + 1) in visited
  }

  /** Every entry already expanded (the first `done`) at depth below 2 has its next keys visited. */
  ghost predicate ExpandedClosed(g: Graph, log: seq<Visit>, done: int, visited: set<Key>)
  {
    forall j :: 0 <= j < done && j < |log| && log[j].depth < 2 ==> Covered(g, log[j], visited)
  }

  /** Expanding the entry at `p` (or skipping it at depth 2) extends the closed prefix by one. */
  lemma ExpandedClosedNext(g: Graph, log: seq<Visit>, log1: seq<Visit>, p: nat, visited: set<Key>, visited1: set<Key>)
    requires ExpandedClosed(g, log, p, visited) && p < |log| <= |log1| && log1[..|log|] == log
    requires visited <= visited1
    requires log[p].depth < 2 ==> Covered(g, log[p], visited1)
    ensures ExpandedClosed(g, log1, p + 1, visited1)
  {
    forall j | 0 <= j < p + 1 && j < |log1| && log1[j].depth < 2
      ensures Covered(g, log1[j], visited1)
    {
      assert log1[j] == log[j];
    }
  }

  /** Once every entry is expanded, the keys one edge beyond a shallow entry are all logged. */
  lemma ClosedLog(g: Graph, log: seq<Visit>, visited: set<Key>)
    requires ExpandedClosed(g, log, |log|, visited) && visited == LogKeys(log)
    ensures forall j :: 0 <= j < |log| && log[j].depth < 2 ==> NextKeys(g, log[j]) <= LogKeys(log)
  {
    forall j, k | 0 <= j < |log| && log[j].depth < 2 && k in NextKeys(g, log[j])
      ensures k in LogKeys(log)
    {
      var e :| e in Out(g, log[j].node) && k == (e.to, log[j].depth + 1);
      assert Covered(g, log[j], visited);
    }
  }

  /** What the log of a search guarantees once it stops: `HistoryFacts` and `Grown` read back. */
  lemma LogFacts(g: Graph, src: string, visited: set<Key>, log: seq<Visit>)
    requires History(visited, log) && |log| > 0 && log[0] == Visit(src, 1.0, 0) && Grown(g, log)
    ensures forall i :: 0 < i < |log| ==> ReachedBefore(g, log, i)
    ensures forall i, j :: 0 <= i < j < |log| ==> KeyOf(log[i]) != KeyOf(log[j])
    ensures forall i :: 0 <= i < |log| ==> log[i].depth <= 2
    ensures visited == LogKeys(log)
  {
    HistoryFacts(visited, log);
  }

  /**
   * The search's log between two pops: it starts at the source, keeps the visited keys,
   * every later entry lies one edge beyond an earlier one, the queue is its tail, and the
   * entries before that tail have been expanded.
   */
  ghost predicate Logged(g: Graph, src: string, queue: seq<Visit>, visited: set<Key>, log: seq<Visit>)
  {
    && History(visited, log)
    && QueueTail(queue, log)
    && |log| > 0 && log[0] == Visit(src, 1.0, 0)
    && Grown(g, log)
    && ExpandedClosed(g, log, |log| - |queue|, visited)
  }

  /** Before the first pop, queue and log are just the source. */
  lemma LogStart(g: Graph, src: string)
    ensures Logged(g, src, [Visit(src, 1.0, 0)], {(src, 0)}, [Visit(src, 1.0, 0)])
  {
    var log := [Visit(src, 1.0, 0)];
    assert log[..0] == [] && log == log[0..];
    assert {(src, 0)} - {KeyOf(log[0])} == {};
  }

  /** Popping an entry at depth 2 without expanding it keeps the log's invariant. */
  lemma LogSkip(g: Graph, src: string, queue: seq<Visit>, visited: set<Key>, log: seq<Visit>)
    requires Logged(g, src, queue, visited, log) && |queue| > 0 && queue[0].depth >= 2
    ensures Logged(g, src, queue[1..], visited, log)
  {
    var p := |log| - |queue|;
    QueueTailNext(queue, log, []);
    assert queue[1..] + [] == queue[1..] && log + [] == log;
    ExpandedClosedNext(g, log, log, p, visited, visited);
  }

  /**
   * Expanding the head `v` of the queue keeps the log's invariant: after a miss with the
   * queue and log both grown by `added`, and after a hit as far as the log is concerned.
   */
  lemma LogExpand(g: Graph, src: string, queue: seq<Visit>, visited: set<Key>, log: seq<Visit>,
                  hit: bool, added: seq<Visit>, visited1: set<Key>, log1: seq<Visit>)
    requires Logged(g, src, queue, visited, log) && |queue| > 0
    requires History(visited1, log1) && visited <= visited1
    requires |log| <= |log1| && log1[..|log|] == log
    requires forall k :: |log| <= k < |log1| ==> Reaches(g, queue[0], log1[k])
    requires !hit ==> log1 == log + added && Covered(g, queue[0], visited1)
    ensures History(visited1, log1) && |log1| > 0 && log1[0] == Visit(src, 1.0, 0) && Grown(g, log1)
    ensures !hit ==> Logged(g, src, queue[1..] + added, visited1, log1)
  {
    var p := |log| - |queue|;
    QueueTailNext(queue, log, added);
    assert log1[0] == log1[..|log|][0];
    GrownExtend(g, log, log1, p);
    if !hit {
      ExpandedClosedNext(g, log, log1, p, visited, visited1);
    }
  }

  /**
   * The search between two pops. Before the source is expanded the queue holds just the
   * source. Afterwards the queue is the depth-1 entries `level1` not yet expanded (from
   * `done1` on) followed by depth-2 entries `deep`; the `done1` depth-1 entries already
   * expanded had no edge into `dst`.
   */
  ghost predicate Frontier(g: Graph, src: string, level1: seq<Visit>, dst: string, started: bool,
                           done1: nat, deep: seq<Visit>, queue: seq<Visit>, visited: set<Key>)
  {
    if !started then queue == [Visit(src, 1.0, 0)] && visited == {(src, 0)}
    else
      && done1 <= |level1|
      && queue == level1[done1..] + deep
      && (forall i :: 0 <= i < |deep| ==> deep[i].depth == 2)
      && TwoHopItems(g, level1[..done1], dst).None?
  }

  /** What the entry at the head of the queue is, in each phase of the search. */
  lemma FrontierPop(g: Graph, src: string, level1: seq<Visit>, dst: string, started: bool,
                    done1: nat, deep: seq<Visit>, queue: seq<Visit>, visited: set<Key>)
    requires Frontier(g, src, level1, dst, started, done1, deep, queue, visited) && |queue| > 0
    requires forall i :: 0 <= i < |level1| ==> level1[i].depth == 1
    ensures queue[0].depth >= 2 ==>
      && started && done1 == |level1| && |deep| > 0
      && Frontier(g, src, level1, dst, started, done1, deep[1..], queue[1..], visited)
    ensures queue[0].depth == 0 ==>
      !started && queue[0] == Visit(src, 1.0, 0) && queue[1..] == [] && visited == {(src, 0)}
    ensures queue[0].depth == 1 ==>
      && started && done1 < |level1| && queue[0] == level1[done1]
      && queue[1..] == level1[done1 + 1..] + deep
  {
    if started {
      if done1 < |level1| {
        assert level1[done1..] == [level1[done1]] + level1[done1 + 1..];
        assert queue[0] == level1[done1] && queue[0].depth == 1;
      } else {
        assert level1[done1..] == [];
        assert queue == deep;
        assert queue[0].depth == 2;
        forall i | 0 <= i < |deep[1..]|
          ensures deep[1..][i].depth == 2
        {
          assert deep[1..][i] == deep[i + 1];
        }
        assert queue[1..] == level1[done1..] + deep[1..];
      }
    }
  }

  /** Expanding the source without a hit enters the depth-1 phase. */
  lemma FrontierStart(g: Graph, src: string, dst: string, queue: seq<Visit>, visited: set<Key>)
    requires queue == [] + Enqueue(Out(g, src), Visit(src, 1.0, 0), {(src, 0)}).0
    ensures Frontier(g, src, Level1(Out(g, src)), dst, true, 0, [], queue, visited)
  {
    var level1 := Level1(Out(g, src));
    EnqueueFromSource(Out(g, src), src);
    assert queue == level1[0..] + [];
    assert level1[..0] == [];
  }

  /** Expanding a depth-1 entry without a hit moves on to the next one. */
  lemma FrontierNext(g: Graph, src: string, level1: seq<Visit>, dst: string, done1: nat,
                     deep: seq<Visit>, added: seq<Visit>, queue: seq<Visit>, visited: set<Key>)
    requires done1 < |level1|
    requires TwoHopItems(g, level1[..done1], dst).None?
    requires FirstRateTo(Out(g, level1[done1].node), dst).None?
    requires queue == level1[done1 + 1..] + deep + added
    requires forall i :: 0 <= i < |deep| ==> deep[i].depth == 2
    requires forall i :: 0 <= i < |added| ==> added[i].depth == 2
    ensures Frontier(g, src, level1, dst, true, done1 + 1, deep + added, queue, visited)
  {
    Level1Miss(g, level1, done1, dst);
    assert queue == level1[done1 + 1..] + (deep + added);
    forall i | 0 <= i < |deep + added|
      ensures (deep + added)[i].depth == 2
    {
      if i < |deep| {
        assert (deep + added)[i] == deep[i];
      } else {
        assert (deep + added)[i] == added[i - |deep|];
      }
    }
  }

  /**
   * Expanding the head of the queue at depth 0 or 1: a hit is the rate `Rate` defines; a miss
   * moves the search to its next phase (source expanded, or one more depth-1 entry).
   */
  lemma FrontierExpand(g: Graph, currency1: string, currency2: string, level1: seq<Visit>,
                       started: bool, done1: nat, deep: seq<Visit>, queue: seq<Visit>, visited: set<Key>,
                       hit: Option<real>, queue': seq<Visit>, visited': set<Key>)
    returns (started': bool, done1': nat, deep': seq<Visit>)
    requires Upper(currency1) != Upper(currency2) && level1 == Level1(Out(g, Upper(currency1)))
    requires Frontier(g, Upper(currency1), level1, Upper(currency2), started, done1, deep, queue, visited)
    requires started ==> FirstRateTo(Out(g, Upper(currency1)), Upper(currency2)).None?
    requires |queue| > 0 && queue[0].depth < 2
    requires hit.None? <==> FirstRateTo(Out(g, queue[0].node), Upper(currency2)).None?
    requires hit.Some? ==> hit.value == Chain(queue[0].rate, FirstRateTo(Out(g, queue[0].node), Upper(currency2)).value)
    requires hit.None? ==> queue' == queue[1..] + Enqueue(Out(g, queue[0].node), queue[0], visited).0
    ensures hit.Some? ==> hit == Rate(g, currency1, currency2)
    ensures hit.None? ==> Frontier(g, Upper(currency1), level1, Upper(currency2), started', done1', deep', queue', visited')
    ensures hit.None? ==> FirstRateTo(Out(g, Upper(currency1)), Upper(currency2)).None? && done1' <= |level1|
    ensures hit.None? ==> started' && ((!started && done1' == 0) || (started && done1 < done1'))
  {
    var src, dst := Upper(currency1), Upper(currency2);
    FrontierPop(g, src, level1, dst, started, done1, deep, queue, visited);
    var v := queue[0];
    var added := Enqueue(Out(g, v.node), v, visited).0;
    if hit.Some? {
      if v.depth == 0 {
        assert Chain(1.0, FirstRateTo(Out(g, src), dst).value) == FirstRateTo(Out(g, src), dst).value;
      } else {
        RateViaLevel1(g, currency1, currency2, done1);
      }
      started', done1', deep' := started, done1, deep;
    } else if v.depth == 0 {
      FrontierStart(g, src, dst, queue', visited');
      started', done1', deep' := true, 0, [];
    } else {
      FrontierNext(g, src, level1, dst, done1, deep, added, queue', visited');
      started', done1', deep' := started, done1 + 1, deep + added;
    }
  }

  /**
   * One pass of the search loop in `find_rate_max_2_hops`: pop the head of the queue, skip
   * it at depth 2, otherwise expand it. A hit is the rate `Rate` defines; a miss keeps the
   * log's and the phases' invariants and makes progress (the source gets expanded, or one
   * more depth-1 entry, or the queue shrinks).
   */
  method SearchStep(graph: Graph, currency1: string, currency2: string, ghost level1: seq<Visit>,
                    queue: seq<Visit>, visited: set<Key>, ghost log: seq<Visit>,
                    ghost started: bool, ghost done1: nat, ghost deep: seq<Visit>)
    returns (hit: Option<real>, queue': seq<Visit>, visited': set<Key>, ghost log': seq<Visit>,
             ghost started': bool, ghost done1': nat, ghost deep': seq<Visit>)
    requires Upper(currency1) != Upper(currency2) && level1 == Level1(Out(graph, Upper(currency1)))
    requires Logged(graph, Upper(currency1), queue, visited, log) && |queue| > 0
    requires Frontier(graph, Upper(currency1), level1, Upper(currency2), started, done1, deep, queue, visited)
    requires started ==> FirstRateTo(Out(graph, Upper(currency1)), Upper(currency2)).None?
    requires done1 <= |level1|
    ensures History(visited', log') && |log'| > 0 && log'[0] == Visit(Upper(currency1), 1.0, 0) && Grown(graph, log')
    ensures hit.Some? ==> hit == Rate(graph, currency1, currency2)
    ensures hit.None? ==> Logged(graph, Upper(currency1), queue', visited', log')
    ensures hit.None? ==> Frontier(graph, Upper(currency1), level1, Upper(currency2), started', done1', deep', queue', visited')
    ensures hit.None? && started' ==> FirstRateTo(Out(graph, Upper(currency1)), Upper(currency2)).None?
    ensures hit.None? ==> done1' <= |level1|
    ensures hit.None? ==>
      || (!started && started')
      || (started == started' && done1 < done1')
      || (started == started' && done1 == done1' && |queue'| < |queue|)
  {
    var src := Upper(currency1);
    var dst := Upper(currency2);
    var v := queue[0];
    if v.depth >= 2 {
      FrontierPop(graph, src, level1, dst, started, done1, deep, queue, visited);
      LogSkip(graph, src, queue, visited, log);
      return None, queue[1..], visited, log, started, done1, deep[1..];
    }

    ghost var added := Enqueue(Out(graph, v.node), v, visited).0;
    hit, queue', visited', log' := Expand(graph, v, dst, queue[1..], visited, log);
    LogExpand(graph, src, queue, visited, log, hit.Some?, added, visited', log');
    started', done1', deep' := FrontierExpand(graph, currency1, currency2, level1, started, done1, deep,
                                              queue, visited, hit, queue', visited');
  }

  /** Once the queue runs dry every level-1 entry has been expanded without a hit. */
  lemma SearchExhausted(g: Graph, currency1: string, currency2: string, level1: seq<Visit>,
                        done1: nat, deep: seq<Visit>, visited: set<Key>, log: seq<Visit>)
    requires Upper(currency1) != Upper(currency2) && level1 == Level1(Out(g, Upper(currency1)))
    requires Frontier(g, Upper(currency1), level1, Upper(currency2), true, done1, deep, [], visited)
    requires FirstRateTo(Out(g, Upper(currency1)), Upper(currency2)).None?
    ensures Rate(g, currency1, currency2).None?
  {
    assert |level1[done1..]| == 0;
    assert level1[..done1] == level1;
    RateNoRoute(g, currency1, currency2);
  }

  /**
   * `find_rate_max_2_hops`: breadth-first search from the upper-cased source, with a FIFO
   * queue of `(node, rate_so_far, depth)` and a visited set keyed by `(node, depth)`;
   * returns at the first edge into the target, never expands depth 2.
   * `log` is every entry ever put into the queue, in order. It starts at the source; each
   * later entry lies one edge beyond an earlier one; no `(node, depth)` key is enqueued
   * twice and no depth exceeds 2; and when no rate is found every target of an entry at
   * depth 0 or 1 has been enqueued one level deeper.
   */
  method FindRateMax2Hops(graph: Graph, currency1: string, currency2: string)
    returns (rate: Option<real>, ghost log: seq<Visit>)
    ensures rate == Rate(graph, currency1, currency2)
    ensures Upper(currency1) == Upper(currency2) ==> log == []
    ensures Upper(currency1) != Upper(currency2) ==> |log| > 0 && log[0] == Visit(Upper(currency1), 1.0, 0)
    ensures forall i :: 0 < i < |log| ==> ReachedBefore(graph, log, i)
    ensures forall i, j :: 0 <= i < j < |log| ==> KeyOf(log[i]) != KeyOf(log[j])
    ensures forall i :: 0 <= i < |log| ==> log[i].depth <= 2
    ensures rate.None? ==> forall j :: 0 <= j < |log| && log[j].depth < 2 ==> NextKeys(graph, log[j]) <= LogKeys(log)
  {
    var src := Upper(currency1);
    var dst := Upper(currency2);
    if src == dst {
      return Some(1.0), [];
    }

    var queue := [Visit(src, 1.0, 0)];
    var visited := {(src, 0)};
    log := [Visit(src, 1.0, 0)];
    LogStart(graph, src);
    // Search phases: the source is expanded first, then the depth-1 entries one by one
    // (`done1` of them so far), then the depth-2 entries `deep`, never expanded.
    ghost var level1 := Level1(Out(graph, src));
    ghost var started := false;
    ghost var done1: nat := 0;
    ghost var deep: seq<Visit> := [];

    while |queue| > 0
      invariant Logged(graph, src, queue, visited, log)
      invariant Frontier(graph, src, level1, dst, started, done1, deep, queue, visited)
      invariant started ==> FirstRateTo(Out(graph, src), dst).None?
      invariant done1 <= |level1|
      decreases if started then 0 else 1, |level1| - done1, |queue|
    {
      var hit;
      hit, queue, visited, log, started, done1, deep :=
        SearchStep(graph, currency1, currency2, level1, queue, visited, log, started, done1, deep);
      if hit.Some? {
        LogFacts(graph, src, visited, log);
        return hit, log;
      }
    }

    SearchExhausted(graph, currency1, currency2, level1, done1, deep, visited, log);
    LogFacts(graph, src, visited, log);
    ClosedLog(graph, log, visited);
    return None, log;
  }
}
