// workers/trace/engine.ts:116-121: what is left of a trace whose job was tried more than once.
module TraceRetry {
  import opened Wrappers
  import opened Taints
  import opened TaintAllocation
  import opened Sequences
  import opened Transfers
  import opened TraceModel
  import opened TraceRows
  import opened TraceLoop

  ghost function StoreAll(stored: map<DbKey, Row>, writes: seq<seq<Row>>): map<DbKey, Row> {
    if writes == [] then stored else CreateMany(StoreAll(stored, writes[..|writes| - 1]), writes[|writes| - 1])
  }

  ghost function MergeEach(graph: map<GraphKey, Transfer>, writes: seq<seq<Row>>): map<GraphKey, Transfer> {
    if writes == [] then graph else MergeAll(MergeEach(graph, writes[..|writes| - 1]), writes[|writes| - 1])
  }

  // ---- exactly when a retry leaves what one clean attempt would ----

  /**
    * Whatever rows any number of earlier attempts wrote: after the attempt that completes, the Hop table is the one a
    * single clean attempt leaves if and only if every row that was stored is the row c stores under its key.
    */
  lemma TableSafeIff(c: Config, writes: seq<seq<Row>>)
    ensures CreateMany(StoreAll(map[], writes), RowsOf(c)) == CreateMany(map[], RowsOf(c))
       <==> Within(StoreAll(map[], writes), CreateMany(map[], RowsOf(c)))
  {
    StoreSettlesIff(StoreAll(map[], writes), RowsOf(c));
  }

  /** And the graph, if and only if the earlier attempts changed no edge that c does not write. */
  lemma GraphSafeIff(c: Config, graph: map<GraphKey, Transfer>, writes: seq<seq<Row>>)
    ensures MergeAll(MergeEach(graph, writes), RowsOf(c)) == MergeAll(graph, RowsOf(c))
       <==> forall k :: Untouched(RowsOf(c), k) ==> SameAt(MergeEach(graph, writes), graph, k)
  {
    MergeSettlesIff(MergeEach(graph, writes), graph, RowsOf(c));
  }

  ghost predicate Written(writes: seq<seq<Row>>, k: GraphKey) {
    exists i :: 0 <= i < |writes| && !Untouched(writes[i], k)
  }

  lemma {:induction false} MergedKeys(graph: map<GraphKey, Transfer>, rows: seq<Row>, k: GraphKey)
    requires !Untouched(rows, k)
    ensures k in MergeAll(graph, rows)
  {
    var n := |rows| - 1;
    if GraphKeyOf(rows[n]) != k {
      assert rows == rows[..n] + [rows[n]];
      MergedKeys(graph, rows[..n], k);
    }
  }

  lemma {:induction false} MergedEach(graph: map<GraphKey, Transfer>, writes: seq<seq<Row>>, k: GraphKey)
    ensures Written(writes, k) ==> k in MergeEach(graph, writes)
    ensures !Written(writes, k) ==> SameAt(MergeEach(graph, writes), graph, k)
  {
    if writes != [] {
      var n := |writes| - 1;
      MergedEach(graph, writes[..n], k);
      assert Written(writes[..n], k) ==> Written(writes, k);
      if Untouched(writes[n], k) {
        MergeFrame(MergeEach(graph, writes[..n]), writes[n], k);
      } else {
        MergedKeys(MergeEach(graph, writes[..n]), writes[n], k);
      }
    }
  }

  /** Where the graph held none of the trace's edges before: if and only if c writes every edge an earlier attempt wrote. */
  lemma FreshGraphSafeIff(c: Config, graph: map<GraphKey, Transfer>, writes: seq<seq<Row>>)
    requires forall k :: Written(writes, k) ==> k !in graph
    ensures MergeAll(MergeEach(graph, writes), RowsOf(c)) == MergeAll(graph, RowsOf(c))
       <==> forall k :: Written(writes, k) ==> !Untouched(RowsOf(c), k)
  {
    hide RowsOf, Written, Untouched;
    GraphSafeIff(c, graph, writes);
    forall k
      ensures SameAt(MergeEach(graph, writes), graph, k) <==> !Written(writes, k)
    {
      MergedEach(graph, writes, k);
    }
  }

  // ---- attempts that got answers alike ----

  /** Every earlier attempt got some of c's answers, prices included, and stored some first part of its rows. */
  ghost predicate EarlierAttempts(c: Config, cs: seq<Config>, firsts: seq<seq<Row>>) {
    |cs| == |firsts| && forall i :: 0 <= i < |cs| ==> Extends(cs[i], c) && firsts[i] <= RowsOf(cs[i])
  }

  /** Then a retry is safe. */
  lemma RetryIsSafe(c: Config, cs: seq<Config>, stores: seq<seq<Row>>, merges: seq<seq<Row>>, graph: map<GraphKey, Transfer>)
    requires EarlierAttempts(c, cs, stores) && EarlierAttempts(c, cs, merges)
    ensures CreateMany(StoreAll(map[], stores), RowsOf(c)) == CreateMany(map[], RowsOf(c))
    ensures MergeAll(MergeEach(graph, merges), RowsOf(c)) == MergeAll(graph, RowsOf(c))
  {
    AllFirsts(c, cs, stores);
    AllFirsts(c, cs, merges);
    hide RowsOf;
    PrefixesWithin(stores, RowsOf(c));
    TableSafeIff(c, stores);
    GraphSafeIff(c, graph, merges);
    forall k | Untouched(RowsOf(c), k)
      ensures SameAt(MergeEach(graph, merges), graph, k)
    {
      forall i, r | 0 <= i < |merges| && r in merges[i]
        ensures GraphKeyOf(r) != k
      {
        assert r in RowsOf(c);
      }
      MergedEach(graph, merges, k);
    }
  }

  lemma AllFirsts(c: Config, cs: seq<Config>, firsts: seq<seq<Row>>)
    requires EarlierAttempts(c, cs, firsts)
    ensures forall i :: 0 <= i < |firsts| ==> firsts[i] <= RowsOf(c)
  {
    hide Start, Walked;
    forall i | 0 <= i < |firsts|
      ensures firsts[i] <= RowsOf(c)
    {
      WalkResumes(cs[i], c, Start(cs[i]));
      SameStart(cs[i], c);
    }
  }

  lemma SameStart(c: Config, c': Config)
    requires Extends(c, c')
    ensures Start(c) == Start(c')
  {
  }

  lemma {:induction false} PrefixesWithin(writes: seq<seq<Row>>, all: seq<Row>)
    requires forall i :: 0 <= i < |writes| ==> writes[i] <= all
    ensures Within(StoreAll(map[], writes), CreateMany(map[], all))
  {
    if writes != [] {
      var n := |writes| - 1;
      PrefixesWithin(writes[..n], all);
      PrefixWithin(writes[n], all);
      var before := StoreAll(map[], writes[..n]);
      forall k | k in CreateMany(before, writes[n])
        ensures k in CreateMany(map[], all) && CreateMany(map[], all)[k] == CreateMany(before, writes[n])[k]
      {
        CreateManyKeys(before, writes[n]);
        if k !in before {
          CreateManyAt(before, writes[n], k);
        }
      }
    }
  }

  // ---- a price that comes late ----

  const SEED := Node(TRON, "seed")

  /** A trace of 100 USD whose seed sent these transfers, and nobody else any. */
  function SeedTrace(edges: seq<Transfer>, topK: int): Config {
    Config(
      Job(SEED, HAIRCUT, 6, 10.0, 30, 0, Some(100.0)),
      (n, since) => if n == SEED then Some(edges) else Some([]),
      (n, since) => Some([]),
      n => None,
      n => false,
      n => false,
      (bridge, leg) => None,
      topK, 5000, 5000)
  }

  function Payment(tx: string, to: string, usd: Option<real>): Transfer {
    Transfer(tx, 0, "seed", to, "USDT", "100", usd, 5)
  }

  ghost predicate Payments(edges: seq<Transfer>) {
    |edges| <= 2 && forall e :: e in edges ==> e.ts == 5 && e.amount == "100" && MeetsMinValue(e.usd, 10.0)
  }

  lemma {:induction false} FilterAll<T(!new)>(s: seq<T>, p: T -> bool)
    requires forall x :: x in s ==> p(x)
    ensures Filter(s, p) == s
  {
    if s != [] {
      var k := |s| - 1;
      assert s == s[..k] + [s[k]];
      FilterAll(s[..k], p);
    }
  }

  lemma {:induction false} FilterNone<T(!new)>(s: seq<T>, p: T -> bool)
    requires forall x :: !p(x)
    ensures Filter(s, p) == []
  {
    if s != [] {
      FilterNone(s[..|s| - 1], p);
    }
  }

  lemma SplitOf(edges: seq<Transfer>, topK: int, n: Node, outs: seq<Transfer>)
    requires forall e :: e in outs ==> MeetsMinValue(e.usd, 10.0)
    ensures Split(SeedTrace(edges, topK), n, outs, {}) == FanOut([], TopByUsd(outs, topK))
  {
    hide TopByUsd;
    var c := SeedTrace(edges, topK);
    var none: set<EdgeKey> := {};
    FilterAll(outs, (t: Transfer) => EdgeKeyOf(t) !in none);
    FilterNone(outs, (t: Transfer) => ToBridge(c, n, t));
    FilterAll(outs, (t: Transfer) => !ToBridge(c, n, t));
    FilterAll(outs, (t: Transfer) => MeetsMinValue(t.usd, c.job.minValueUsd));
  }

  lemma PlanOfOuts(edges: seq<Transfer>, topK: int, n: Node, m: Meta, outs: seq<Transfer>)
    requires |outs| <= 2 && forall e :: e in outs ==> MeetsMinValue(e.usd, 10.0)
    ensures PlanOutflows(SeedTrace(edges, topK), n, m, outs) == FanOut([], TopByUsd(outs, topK))
  {
    hide Split, TopByUsd;
    var c := SeedTrace(edges, topK);
    SplitOf(edges, topK, n, outs);
    FewRecipients(outs);
    assert forall t :: !ToRouter(c, n, t);
  }

  lemma FewRecipients(outs: seq<Transfer>)
    requires |outs| <= 2
    ensures |set t | t in outs :: t.to| <= 2
  {
    var s := set t | t in outs :: t.to;
    if |outs| == 0 {
      assert s == {};
    } else if |outs| == 1 {
      assert s == {outs[0].to};
    } else {
      assert s == {outs[0].to, outs[1].to};
    }
  }

  lemma PlanOfSeed(edges: seq<Transfer>, topK: int)
    requires Payments(edges)
    ensures var c := SeedTrace(edges, topK); PlanOf(c, SEED, Init(c).nodes[SEED]) == FanOut([], TopByUsd(edges, topK))
  {
    hide TopByUsd, PlanOutflows;
    var c := SeedTrace(edges, topK);
    var m := Init(c).nodes[SEED];
    FilterAll(edges, (t: Transfer) => t.amount != "0" && InWindow(c.job, t.ts) && t.ts >= Since(c.job, m));
    assert Relevant(c, m, edges) == edges;
    PlanOfOuts(edges, topK, SEED, m, edges);
  }

  /** Nobody but the seed sends anything on. */
  lemma QuietElsewhere(edges: seq<Transfer>, topK: int, n: Node, m: Meta)
    requires n != SEED
    ensures var plan := PlanOf(SeedTrace(edges, topK), n, m); !plan.Fails? && PlanRows(plan) == []
  {
    var c := SeedTrace(edges, topK);
    assert Relevant(c, m, []) == [];
    PlanOfOuts(edges, topK, n, m, []);
    assert TopByUsd([], topK) == [];
  }

  lemma {:induction false} NoMoreRows(edges: seq<Transfer>, topK: int, l: Loop)
    requires SEED in l.s.expanded
    ensures Walked(SeedTrace(edges, topK), l).s.rows == l.s.rows
    decreases if l.processed < 5000 then 5000 - l.processed else 0, |l.heap|
  {
    hide PlanOf, Expand, ExpandPushes, PushAll;
    var c := SeedTrace(edges, topK);
    assert c.maxNodes == 5000;
    if Going(c, l) && !Throws(c, l) {
      var n := l.heap[0].key;
      if !Stale(l) {
        QuietElsewhere(edges, topK, n, l.s.nodes[n]);
        ExpandRows(c, l.s, n);
        assert WithRows(l.s.rows, n, []) == l.s.rows;
      }
      Shrinks(c, l);
      NoMoreRows(edges, topK, Next(c, l));
    }
  }

  lemma RowsOfSeed(edges: seq<Transfer>, topK: int)
    requires Payments(edges)
    ensures RowsOf(SeedTrace(edges, topK)) == WithRows([], SEED, TopByUsd(edges, topK))
  {
    hide PlanOf, Expand, ExpandPushes, PushAll, TopByUsd;
    var c := SeedTrace(edges, topK);
    PlanOfSeed(edges, topK);
    ExpandRows(c, Init(c), SEED);
    assert [] + TopByUsd(edges, topK) == TopByUsd(edges, topK);
    NoMoreRows(edges, topK, Next(c, Start(c)));
  }

  lemma OneRow(e: Transfer)
    ensures WithRows([], SEED, [e]) == [Row(1, SEED, e)]
    ensures CreateMany(map[], [Row(1, SEED, e)]) == map[DbKeyOf(Row(1, SEED, e)) := Row(1, SEED, e)]
  {
    assert [e][..0] == [];
    assert WithRows([], SEED, []) == [];
    assert [Row(1, SEED, e)][..0] == [];
  }

  lemma TopOfOne(e: Transfer, topK: int)
    requires topK >= 1
    ensures TopByUsd([e], topK) == [e]
  {
    assert [e][..0] == [];
    assert Sort([e], ByUsd) == [e];
  }

  /**
    * The transfer itself is cached, its price is not. An attempt that finds no price writes the row without one and dies;
    * the next attempt gets the price, but the unpriced row stays.
    */
  lemma PriceArrivesLate(p: real)
    requires p >= 10.0
    ensures var first := RowsOf(SeedTrace([Payment("tx", "payee", None)], 10));
      var all := RowsOf(SeedTrace([Payment("tx", "payee", Some(p))], 10));
      CreateMany(CreateMany(map[], first), all) != CreateMany(map[], all)
  {
    hide RowsOf;
    var before, after := Payment("tx", "payee", None), Payment("tx", "payee", Some(p));
    RowsOfSeed([before], 10);
    RowsOfSeed([after], 10);
    TopOfOne(before, 10);
    TopOfOne(after, 10);
    OneRow(before);
    OneRow(after);
    var stored := CreateMany(map[], [Row(1, SEED, before)]);
    StoreSettlesIff(stored, [Row(1, SEED, after)]);
    assert DbKeyOf(Row(1, SEED, before)) in stored;
  }

  lemma TopOfTwo(a: Transfer, b: Transfer)
    ensures TopByUsd([a, b], 1) == [if ByUsd(a, b) then a else b]
  {
    assert [a, b][..1] == [a] && [a][..0] == [];
    assert Sort([a], ByUsd) == [a];
    assert Insert([a], b, ByUsd) == if ByUsd(a, b) then [a] + [b] else Insert([], b, ByUsd) + [a];
    assert Sort([a, b], ByUsd) == if ByUsd(a, b) then [a, b] else [b, a];
  }

  lemma PriceSelects(a: Transfer, b: Transfer, p: real)
    requires a == Payment("a", "x", Some(100.0)) && b == Payment("b", "y", None) && p > 100.0
    ensures RowsOf(SeedTrace([a, b], 1)) == [Row(1, SEED, a)]
    ensures RowsOf(SeedTrace([a, b.(usd := Some(p))], 1)) == [Row(1, SEED, b.(usd := Some(p)))]
  {
    hide RowsOf;
    var b' := b.(usd := Some(p));
    RowsOfSeed([a, b], 1);
    RowsOfSeed([a, b'], 1);
    TopOfTwo(a, b);
    TopOfTwo(a, b');
    OneRow(a);
    OneRow(b');
  }

  /** And where the late price changes the selection, table and graph keep an edge no clean attempt writes. */
  lemma SelectionChanges(a: Transfer, b: Transfer, p: real)
    requires a == Payment("a", "x", Some(100.0)) && b == Payment("b", "y", None) && p > 100.0
    ensures var first, all := RowsOf(SeedTrace([a, b], 1)), RowsOf(SeedTrace([a, b.(usd := Some(p))], 1));
      && first == [Row(1, SEED, a)] && all == [Row(1, SEED, b.(usd := Some(p)))]
      && CreateMany(CreateMany(map[], first), all) != CreateMany(map[], all)
      && MergeAll(MergeAll(map[], first), all) != MergeAll(map[], all)
  {
    hide RowsOf, Extends;
    var b' := b.(usd := Some(p));
    PriceSelects(a, b, p);
    OneRow(a);
    OneRow(b');
    var stored, merged := CreateMany(map[], [Row(1, SEED, a)]), MergeAll(map[], [Row(1, SEED, a)]);
    StoreSettlesIff(stored, [Row(1, SEED, b')]);
    assert DbKeyOf(Row(1, SEED, a)) in stored;
    var k := GraphKeyOf(Row(1, SEED, a));
    MergedKeys(map[], [Row(1, SEED, a)], k);
    MergeSettlesIff(merged, map[], [Row(1, SEED, b')]);
    assert Untouched([Row(1, SEED, b')], k) && !SameAt(merged, map[], k);
  }
}
