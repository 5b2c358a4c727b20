/**
 * What the parsing of the tickers payload guarantees, stated over whole item lists:
 * which items are passed over, which abort the batch, and what the resulting table holds.
 * Most proofs are done once over the loop's steps (`Run`) and then read back in terms of
 * the items (`ParseItems`).
 */
module BudaClientProperties {
  import opened Wrappers
  import opened Ascii
  import opened BudaClient

  /** Splitting is the inverse of joining with '-' when the left part has no '-'. */
  lemma SplitMarketIdOfJoin(base: string, quote: string)
    requires '-' !in base
    ensures SplitMarketId(base + "-" + quote) == Ok((Upper(base), Upper(quote)))
  {
    var s := base + "-" + quote;
    assert s[|base|] == '-';
    assert s[..|base|] == base;
    assert s[|base| + 1..] == quote;
  }

  /** Each key's ticker sits in `values()` at that key's place in insertion order. */
  lemma ValuesPlaces(t: TickerTable)
    requires WellFormed(t)
    ensures forall k :: k in t.byId ==> exists i :: 0 <= i < |Values(t)| && t.order[i] == k && Values(t)[i] == t.byId[k]
  {
    forall k | k in t.byId
      ensures exists i :: 0 <= i < |Values(t)| && t.order[i] == k && Values(t)[i] == t.byId[k]
    {
      var i :| 0 <= i < |t.order| && t.order[i] == k;
      ValuesAt(t, i);
    }
  }

  /**
   * `values()` after `out[key] = ticker`: a new key's ticker comes last; an existing key's
   * ticker is replaced in its place and every other ticker stays where it was.
   */
  lemma ValuesPut(t: TickerTable, key: string, ticker: Ticker)
    requires WellFormed(t)
    ensures key !in t.byId ==> Values(Put(t, key, ticker)) == Values(t) + [ticker]
    ensures key in t.byId ==> |Values(Put(t, key, ticker))| == |Values(t)|
    ensures key in t.byId ==> forall i :: 0 <= i < |Values(t)| ==>
      Values(Put(t, key, ticker))[i] == if t.order[i] == key then ticker else Values(t)[i]
  {
    ValuesPutPrefix(t, key, ticker);
    if key !in t.byId {
      var v, w := Values(t), Values(Put(t, key, ticker));
      ValuesAt(Put(t, key, ticker), |v|);
      assert w == v + [ticker];
    }
  }

  /** The places of `values()` held before `out[key] = ticker` keep their key's ticker. */
  lemma ValuesPutPrefix(t: TickerTable, key: string, ticker: Ticker)
    requires WellFormed(t)
    ensures |Values(t)| <= |Values(Put(t, key, ticker))|
    ensures forall i :: 0 <= i < |Values(t)| ==>
      Values(Put(t, key, ticker))[i] == if t.order[i] == key then ticker else Values(t)[i]
  {
    var r := Put(t, key, ticker);
    var n := |t.order|;
    assert |r.order| >= n && r.order[..n] == t.order;
    forall i | 0 <= i < n
      ensures Values(r)[i] == if t.order[i] == key then ticker else Values(t)[i]
    {
      assert r.order[i] == t.order[i];
      ValuesAt(t, i);
      ValuesAt(r, i);
    }
  }

  lemma StepsAppend(a: seq<Json>, b: seq<Json>, dec: string -> Option<real>)
    ensures Steps(a + b, dec) == Steps(a, dec) + Steps(b, dec)
  {
  }

  /** A `Skip` step leaves the outcome of the run unchanged, wherever it occurs. */
  lemma {:induction false} RunSkipIgnored(before: seq<Step>, after: seq<Step>)
    ensures Run(before + [Skip] + after) == Run(before + after)
  {
    if |after| == 0 {
      assert before + [Skip] + after == before + [Skip];
      assert before + after == before;
      assert (before + [Skip])[..|before|] == before;
    } else {
      var a0, x := after[..|after| - 1], after[|after| - 1];
      assert before + [Skip] + after == (before + [Skip] + a0) + [x];
      assert before + after == (before + a0) + [x];
      RunSkipIgnored(before, a0);
      RunSnocSame(before + [Skip] + a0, before + a0, x);
    }
  }

  /** Runs with the same outcome stay equal when the same step follows. */
  lemma RunSnocSame(s1: seq<Step>, s2: seq<Step>, x: Step)
    requires Run(s1) == Run(s2)
    ensures Run(s1 + [x]) == Run(s2 + [x])
  {
    assert (s1 + [x])[..|s1|] == s1;
    assert (s2 + [x])[..|s2|] == s2;
  }

  /** An item that the loop passes over leaves the outcome of the whole batch unchanged. */
  lemma SkippedItemIgnored(before: seq<Json>, item: Json, after: seq<Json>, dec: string -> Option<real>)
    requires Skipped(item)
    ensures ParseItems(before + [item] + after, dec) == ParseItems(before + after, dec)
  {
    var b, a := Steps(before, dec), Steps(after, dec);
    assert Steps([item], dec) == [Skip];
    StepsAppend(before + [item], after, dec);
    StepsAppend(before, [item], dec);
    StepsAppend(before, after, dec);
    assert Steps(before + [item] + after, dec) == b + [Skip] + a;
    RunSkipIgnored(b, a);
  }

  /** With no `Abort` step the run succeeds. */
  lemma {:induction false} RunNoAbort(steps: seq<Step>)
    requires forall j :: 0 <= j < |steps| ==> !steps[j].Abort?
    ensures Run(steps).Ok?
  {
    if |steps| > 0 {
      RunNoAbort(steps[..|steps| - 1]);
    }
  }

  /** Step `i` is the first `Abort`. */
  predicate FirstAbortAt(steps: seq<Step>, i: nat)
  {
    && i < |steps|
    && steps[i].Abort?
    && forall j :: 0 <= j < i ==> !steps[j].Abort?
  }

  /** The first `Abort` step decides the error, whatever follows it. */
  lemma RunFirstAbort(steps: seq<Step>, i: nat)
    requires FirstAbortAt(steps, i)
    ensures Run(steps) == Err(steps[i].error)
  {
    var pre := steps[..i + 1];
    assert pre[..i] == steps[..i];
    RunNoAbort(steps[..i]);
    AbortPropagates(steps, i + 1);
  }

  /** Picks the first `Abort` of a run that has one. */
  lemma FindFirstAbort(steps: seq<Step>) returns (i: nat)
    requires exists i :: 0 <= i < |steps| && steps[i].Abort?
    ensures FirstAbortAt(steps, i)
  {
    var k :| 0 <= k < |steps| && steps[k].Abort?;
    i := 0;
    while !steps[i].Abort?
      invariant i <= k
      invariant forall j :: 0 <= j < i ==> !steps[j].Abort?
      decreases k - i
    {
      i := i + 1;
    }
  }

  /**
   * An item whose identifier has no '-' or whose first price is not a decimal string
   * fails the whole batch, whatever follows it; the error is the first such item's.
   */
  lemma FirstAbortDecides(items: seq<Json>, i: nat, dec: string -> Option<real>)
    requires i < |items| && Classify(items[i], dec).Abort?
    requires forall j :: 0 <= j < i ==> !Classify(items[j], dec).Abort?
    ensures ParseItems(items, dec) == Err(Classify(items[i], dec).error)
  {
    RunFirstAbort(Steps(items, dec), i);
  }

  /** The batch fails exactly when some item aborts it. */
  lemma ParseItemsFails(items: seq<Json>, dec: string -> Option<real>)
    ensures ParseItems(items, dec).Err? <==> exists i :: 0 <= i < |items| && Classify(items[i], dec).Abort?
  {
    var steps := Steps(items, dec);
    if exists i :: 0 <= i < |items| && Classify(items[i], dec).Abort? {
      var i :| 0 <= i < |items| && Classify(items[i], dec).Abort?;
      assert steps[i].Abort?;
      var f := FindFirstAbort(steps);
      RunFirstAbort(steps, f);
    } else {
      RunNoAbort(steps);
    }
  }

  /** Step `i` stores under some key and no later step stores under the same key. */
  predicate LastStoreAt(steps: seq<Step>, i: nat)
  {
    && i < |steps|
    && steps[i].Store?
    && forall j :: i < j < |steps| ==> !(steps[j].Store? && steps[j].key == steps[i].key)
  }

  /** The keys the steps store under. */
  function StoredKeys(steps: seq<Step>): set<string>
  {
    set i | 0 <= i < |steps| && steps[i].Store? :: steps[i].key
  }

  lemma StoredKeysSnoc(pre: seq<Step>, x: Step)
    ensures StoredKeys(pre + [x]) == StoredKeys(pre) + (if x.Store? then {x.key} else {})
  {
    var steps := pre + [x];
    forall k | k in StoredKeys(steps)
      ensures k in StoredKeys(pre) + (if x.Store? then {x.key} else {})
    {
      var i :| 0 <= i < |steps| && steps[i].Store? && steps[i].key == k;
      if i < |pre| {
        assert pre[i] == steps[i];
      }
    }
    forall k | k in StoredKeys(pre)
      ensures k in StoredKeys(steps)
    {
      var i :| 0 <= i < |pre| && pre[i].Store? && pre[i].key == k;
      assert steps[i] == pre[i];
    }
    if x.Store? {
      assert steps[|pre|] == x;
    }
  }

  /**
   * A successful run holds exactly the keys stored by its steps, and under each key the
   * ticker of the LAST step storing there: a later duplicate overwrites an earlier one.
   */
  lemma RunTable(steps: seq<Step>)
    requires Run(steps).Ok?
    ensures Run(steps).value.byId.Keys == StoredKeys(steps)
    ensures forall i: nat :: LastStoreAt(steps, i) ==> Run(steps).value.byId[steps[i].key] == steps[i].ticker
  {
    RunKeys(steps);
    forall i: nat | LastStoreAt(steps, i)
      ensures Run(steps).value.byId[steps[i].key] == steps[i].ticker
    {
      RunLastStore(steps, i);
    }
  }

  lemma {:induction false} RunKeys(steps: seq<Step>)
    requires Run(steps).Ok?
    ensures Run(steps).value.byId.Keys == StoredKeys(steps)
  {
    if |steps| > 0 {
      var pre, x := steps[..|steps| - 1], steps[|steps| - 1];
      assert steps == pre + [x];
      RunSnocTable(pre, x);
      RunKeys(pre);
      StoredKeysSnoc(pre, x);
      var t0, t := Run(pre).value.byId, Run(steps).value.byId;
      assert t.Keys == t0.Keys + (if x.Store? then {x.key} else {});
    }
  }

  lemma {:induction false} RunLastStore(steps: seq<Step>, i: nat)
    requires Run(steps).Ok? && LastStoreAt(steps, i)
    ensures steps[i].key in Run(steps).value.byId
    ensures Run(steps).value.byId[steps[i].key] == steps[i].ticker
  {
    var pre, x := steps[..|steps| - 1], steps[|steps| - 1];
    assert steps == pre + [x];
    RunSnocTable(pre, x);
    if i < |pre| {
      LastStoreOfPrefix(pre, x, i);
      RunLastStore(pre, i);
    } else {
      assert x == steps[i];
    }
  }

  /** The table after one more step of a successful run. */
  lemma RunSnocTable(pre: seq<Step>, x: Step)
    requires Run(pre + [x]).Ok?
    ensures Run(pre).Ok?
    ensures Run(pre + [x]).value.byId == if x.Store? then Run(pre).value.byId[x.key := x.ticker] else Run(pre).value.byId
  {
    assert (pre + [x])[..|pre|] == pre;
  }

  /** A last store before the final step is a last store of the prefix, and the final step does not overwrite it. */
  lemma LastStoreOfPrefix(pre: seq<Step>, x: Step, i: nat)
    requires i < |pre| && LastStoreAt(pre + [x], i)
    ensures LastStoreAt(pre, i)
    ensures !(x.Store? && x.key == pre[i].key)
  {
    var steps := pre + [x];
    assert steps[i] == pre[i];
    forall j | i < j < |pre|
      ensures !(pre[j].Store? && pre[j].key == pre[i].key)
    {
      assert steps[j] == pre[j];
    }
    assert steps[|pre|] == x;
  }

  /**
   * A successful batch holds one entry per upper-cased identifier of an item that stores,
   * and that entry is the ticker of the LAST such item.
   */
  lemma ParsedTable(items: seq<Json>, dec: string -> Option<real>)
    requires ParseItems(items, dec).Ok?
    ensures var t, steps := ParseItems(items, dec).value, Steps(items, dec);
      && t.byId.Keys == StoredKeys(steps)
      && forall i: nat :: LastStoreAt(steps, i) ==> t.byId[steps[i].key] == steps[i].ticker
  {
    RunTable(Steps(items, dec));
  }

  /** A stored ticker is filed under its own identifier, with upper-case halves joining to it. */
  predicate StoreConsistent(key: string, t: Ticker)
  {
    && t.marketId == key
    && IsUpper(t.base) && IsUpper(t.quote)
    && t.base + "-" + t.quote == key
  }

  /** If every store is consistent, so is every entry of the resulting table. */
  lemma {:induction false} RunConsistent(steps: seq<Step>)
    requires forall j :: 0 <= j < |steps| && steps[j].Store? ==> StoreConsistent(steps[j].key, steps[j].ticker)
    requires Run(steps).Ok?
    ensures forall k :: k in Run(steps).value.byId ==> StoreConsistent(k, Run(steps).value.byId[k])
  {
    if |steps| > 0 {
      RunConsistent(steps[..|steps| - 1]);
    }
  }

  /** Every ticker of a successful batch is filed under its own upper-case identifier. */
  lemma ParsedTickersConsistent(items: seq<Json>, dec: string -> Option<real>)
    requires ParseItems(items, dec).Ok?
    ensures var t := ParseItems(items, dec).value;
      forall k :: k in t.byId ==> StoreConsistent(k, t.byId[k])
  {
    var steps := Steps(items, dec);
    forall j | 0 <= j < |steps| && steps[j].Store?
      ensures StoreConsistent(steps[j].key, steps[j].ticker)
    {
      assert steps[j] == Classify(items[j], dec);
    }
    RunConsistent(steps);
  }
}
