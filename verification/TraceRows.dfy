// The hop rows of a trace: numbering, distinctness, and what the unique key of the Hop table keeps of them.
module TraceRows {
  import opened Wrappers
  import opened Taints
  import opened Sequences
  import opened Transfers
  import opened TraceModel

  ghost predicate Unique<K(!new)>(bag: multiset<K>) {
    forall k :: bag[k] <= 1
  }

  ghost predicate UniqueKeys(edges: seq<Transfer>) {
    Unique(BagBy(edges, EdgeKeyOf))
  }

  /** (txHash, idx) is unique among an address's transfers; TraceInputs says when the TRON walk gives that. */
  ghost predicate DistinctOutflows(c: Config) {
    forall n, since :: c.outflows(n, since).Some? ==> UniqueKeys(c.outflows(n, since).value)
  }

  type RowKey = (Node, EdgeKey)

  function RowKeyOf(r: Row): RowKey {
    (r.from, EdgeKeyOf(r.edge))
  }

  ghost predicate Numbered(rows: seq<Row>) {
    forall i :: 0 <= i < |rows| ==> rows[i].hopNo == i + 1
  }

  function PlanRows(plan: Plan): seq<Transfer> {
    match plan
    case Fails => []
    case Stop(_) => []
    case HighDegree(shown) => shown
    case FanOut(legs, top) => legs + top
  }

  lemma {:induction false} WithRowsAppends(rows: seq<Row>, n: Node, a: seq<Transfer>, b: seq<Transfer>)
    ensures WithRows(rows, n, a + b) == WithRows(WithRows(rows, n, a), n, b)
  {
    if b == [] {
      assert a + b == a;
    } else {
      var k := |b| - 1;
      assert (a + b)[..|a + b| - 1] == a + b[..k];
      WithRowsAppends(rows, n, a, b[..k]);
    }
  }

  lemma {:induction false} CrossBridgesRows(c: Config, s: State, n: Node, m: Meta, legs: seq<Transfer>)
    ensures CrossBridges(c, s, n, m, legs).rows == WithRows(s.rows, n, legs)
    ensures CrossBridges(c, s, n, m, legs).expanded == s.expanded
  {
    if legs != [] {
      var k := |legs| - 1;
      CrossBridgesRows(c, s, n, m, legs[..k]);
      assert legs == legs[..k] + [legs[k]];
      WithRowsAppends(s.rows, n, legs[..k], [legs[k]]);
    }
  }

  lemma {:induction false} PushTopFrame(s: State, n: Node, m: Meta, shares: map<EdgeKey, real>, top: seq<Transfer>)
    ensures PushTop(s, n, m, shares, top).rows == s.rows
    ensures PushTop(s, n, m, shares, top).expanded == s.expanded
  {
    if top != [] {
      PushTopFrame(s, n, m, shares, top[..|top| - 1]);
    }
  }

  lemma {:induction false} ExpandRows(c: Config, s: State, n: Node)
    requires n in s.nodes
    ensures Expand(c, s, n).rows == WithRows(s.rows, n, PlanRows(PlanOf(c, n, s.nodes[n])))
    ensures Expand(c, s, n).expanded == s.expanded + {n}
  {
    hide PlanOf;
    var m := s.nodes[n];
    match PlanOf(c, n, m)
    case Fails =>
    case Stop(_) =>
    case HighDegree(shown) =>
    case FanOut(legs, top) =>
      var s1 := Mark(s, n);
      CrossBridgesRows(c, s1, n, m, legs);
      var s2 := CrossBridges(c, s1, n, m, legs);
      PushTopFrame(s2.(rows := WithRows(s2.rows, n, top)), n, m, Shares(c.job, m.taint, top), top);
      WithRowsAppends(s.rows, n, legs, top);
  }

  lemma {:induction false} BagAppend<T, K>(a: seq<T>, b: seq<T>, f: T -> K)
    ensures BagBy(a + b, f) == BagBy(a, f) + BagBy(b, f)
  {
    if b == [] {
      assert a + b == a;
    } else {
      var k := |b| - 1;
      assert (a + b)[..|a + b| - 1] == a + b[..k];
      BagAppend(a, b[..k], f);
    }
  }

  lemma SelectedKeys(nonSwap: seq<Transfer>, toBridge: Transfer -> bool, notBridge: Transfer -> bool, worth: Transfer -> bool, k: int)
    requires forall t :: t in nonSwap ==> notBridge(t) == !toBridge(t)
    ensures BagBy(Filter(nonSwap, toBridge) + TopByUsd(Filter(Filter(nonSwap, notBridge), worth), k), EdgeKeyOf) <= BagBy(nonSwap, EdgeKeyOf)
  {
    var bridgeLegs, candidates := Filter(nonSwap, toBridge), Filter(nonSwap, notBridge);
    var priced := Filter(candidates, worth);
    SplitBag(nonSwap, toBridge, notBridge, EdgeKeyOf);
    FilterBag(candidates, worth, EdgeKeyOf);
    TopKeys(priced, k);
    BagAppend(bridgeLegs, TopByUsd(priced, k), EdgeKeyOf);
  }

  lemma TopKeys(edges: seq<Transfer>, k: int)
    ensures BagBy(TopByUsd(edges, k), EdgeKeyOf) <= BagBy(edges, EdgeKeyOf)
  {
    SortBag(edges, ByUsd, EdgeKeyOf);
    PrefixBag(TopByUsd(edges, k), Sort(edges, ByUsd), EdgeKeyOf);
  }

  lemma SplitKeys(c: Config, n: Node, outs: seq<Transfer>, legs: set<EdgeKey>)
    ensures BagBy(PlanRows(Split(c, n, outs, legs)), EdgeKeyOf) <= BagBy(outs, EdgeKeyOf)
  {
    hide TopByUsd, BagBy, Filter;
    var noLeg := (t: Transfer) => EdgeKeyOf(t) !in legs;
    var nonSwap := Filter(outs, noLeg);
    FilterBag(outs, noLeg, EdgeKeyOf);
    SelectedKeys(nonSwap, (t: Transfer) => ToBridge(c, n, t), (t: Transfer) => !ToBridge(c, n, t),
                 (t: Transfer) => MeetsMinValue(t.usd, c.job.minValueUsd), c.topK);
  }

  lemma PlanOutflowsKeys(c: Config, n: Node, m: Meta, outs: seq<Transfer>)
    ensures BagBy(PlanRows(PlanOutflows(c, n, m, outs)), EdgeKeyOf) <= BagBy(outs, EdgeKeyOf)
  {
    hide Split, TopByUsd, BagBy, SwapLegs, ToRouter, Since;
    NoKeys();
    TopKeys(outs, c.topK);
    SplitKeys(c, n, outs, {});
    var inbound := c.inflows(n, Since(c.job, m));
    if inbound.Some? {
      SplitKeys(c, n, outs, SwapLegs(c, n, outs, inbound.value));
    }
  }

  lemma RelevantKeys(c: Config, m: Meta, collected: seq<Transfer>)
    ensures BagBy(Relevant(c, m, collected), EdgeKeyOf) <= BagBy(collected, EdgeKeyOf)
  {
    FilterBag(collected, (t: Transfer) => t.amount != "0" && InWindow(c.job, t.ts) && t.ts >= Since(c.job, m), EdgeKeyOf);
  }

  lemma NoKeys()
    ensures BagBy<Transfer, EdgeKey>([], EdgeKeyOf) == multiset{}
  {
  }

  lemma {:induction false} PlanKeysWithin(c: Config, n: Node, m: Meta, collected: seq<Transfer>)
    requires c.outflows(n, Since(c.job, m)) == Some(collected)
    ensures BagBy(PlanRows(PlanOf(c, n, m)), EdgeKeyOf) <= BagBy(collected, EdgeKeyOf)
  {
    hide PlanOutflows, Relevant, BagBy;
    RelevantKeys(c, m, collected);
    PlanOutflowsKeys(c, n, m, Relevant(c, m, collected));
    NoKeys();
  }

  /** The rows written for one node have pairwise distinct (txHash, idx). */
  lemma PlanKeysUnique(c: Config, n: Node, m: Meta)
    requires DistinctOutflows(c)
    ensures UniqueKeys(PlanRows(PlanOf(c, n, m)))
  {
    hide PlanOutflows, Relevant;
    var collected := c.outflows(n, Since(c.job, m));
    if collected.Some? {
      hide PlanOf, PlanRows;
      PlanKeysWithin(c, n, m, collected.value);
      BagWithin(BagBy(PlanRows(PlanOf(c, n, m)), EdgeKeyOf), BagBy(collected.value, EdgeKeyOf));
    }
  }

  lemma BagWithin<K(!new)>(a: multiset<K>, b: multiset<K>)
    requires a <= b
    ensures Unique(b) ==> Unique(a)
  {
  }

  /** How many rows the bag of from-node n and edge key k counts. */
  ghost predicate RowsFromExpanded(s: State) {
    && Numbered(s.rows)
    && Unique(BagBy(s.rows, RowKeyOf))
    && forall n, k :: n !in s.expanded ==> BagBy(s.rows, RowKeyOf)[(n, k)] == 0
  }

  lemma {:induction false} WithRowsNumbers(rows: seq<Row>, from: Node, edges: seq<Transfer>)
    requires Numbered(rows)
    ensures Numbered(WithRows(rows, from, edges))
    ensures |WithRows(rows, from, edges)| == |rows| + |edges|
  {
    if edges != [] {
      WithRowsNumbers(rows, from, edges[..|edges| - 1]);
    }
  }

  lemma {:induction false} WithRowsBag(rows: seq<Row>, from: Node, edges: seq<Transfer>, key: RowKey)
    ensures BagBy(WithRows(rows, from, edges), RowKeyOf)[key]
         == BagBy(rows, RowKeyOf)[key] + if key.0 == from then BagBy(edges, EdgeKeyOf)[key.1] else 0
  {
    if edges != [] {
      var before := WithRows(rows, from, edges[..|edges| - 1]);
      WithRowsBag(rows, from, edges[..|edges| - 1], key);
      var r := Row(|before| + 1, from, edges[|edges| - 1]);
      assert (before + [r])[..|before|] == before;
    }
  }

  lemma ExpandKeepsRows(c: Config, s: State, n: Node)
    requires DistinctOutflows(c) && RowsFromExpanded(s) && n in Frontier(s)
    ensures RowsFromExpanded(Expand(c, s, n))
  {
    hide PlanOf;
    ExpandRows(c, s, n);
    hide Expand;
    PlanKeysUnique(c, n, s.nodes[n]);
    var edges := PlanRows(PlanOf(c, n, s.nodes[n]));
    WithRowsNumbers(s.rows, n, edges);
    forall key: RowKey
      ensures BagBy(Expand(c, s, n).rows, RowKeyOf)[key]
           == BagBy(s.rows, RowKeyOf)[key] + if key.0 == n then BagBy(edges, EdgeKeyOf)[key.1] else 0
    {
      WithRowsBag(s.rows, n, edges, key);
    }
    forall key: RowKey
      ensures BagBy(Expand(c, s, n).rows, RowKeyOf)[key] <= 1
    {
      assert key == (key.0, key.1);
    }
  }

  /** In every state of every run the rows are numbered 1..n without gaps, no two share a source node and
      (txHash, idx), and only expanded nodes have rows. */
  lemma {:induction false} RunRows(c: Config, states: seq<State>, picks: seq<Node>, i: nat)
    requires DistinctOutflows(c) && IsRun(c, states, picks) && i <= |picks|
    ensures RowsFromExpanded(states[i])
  {
    hide Expand, RowsFromExpanded;
    if i == 0 {
      NoRowsAtStart(c);
    } else {
      RunRows(c, states, picks, i - 1);
      assert Step(c, states[i - 1], picks[i - 1], states[i]);
      ExpandKeepsRows(c, states[i - 1], picks[i - 1]);
    }
  }

  lemma NoRowsAtStart(c: Config)
    ensures RowsFromExpanded(Init(c))
  {
  }

  lemma RowsDiffer(rows: seq<Row>, i: nat, j: nat)
    requires Unique(BagBy(rows, RowKeyOf)) && i < j < |rows|
    ensures RowKeyOf(rows[i]) != RowKeyOf(rows[j])
  {
    var a, b := rows[..j], rows[j..];
    assert rows == a + b;
    BagAppend(a, b, RowKeyOf);
    BagHas(a, RowKeyOf, RowKeyOf(rows[i]));
    BagHas(b, RowKeyOf, RowKeyOf(rows[j]));
    assert a[i] == rows[i] && b[0] == rows[j];
    assert rows[i] in a && rows[j] in b;
    assert BagBy(rows, RowKeyOf)[RowKeyOf(rows[i])] == BagBy(a, RowKeyOf)[RowKeyOf(rows[i])] + BagBy(b, RowKeyOf)[RowKeyOf(rows[i])];
  }

  /** No address is expanded twice, and each expansion is of an address already reached. */
  lemma {:induction false} PicksDiffer(c: Config, states: seq<State>, picks: seq<Node>, i: nat)
    requires IsRun(c, states, picks) && i <= |picks|
    ensures states[i].expanded == set p | p in picks[..i]
    ensures forall a, b :: 0 <= a < b < i ==> picks[a] != picks[b]
  {
    hide Expand;
    if i > 0 {
      PicksDiffer(c, states, picks, i - 1);
      assert Step(c, states[i - 1], picks[i - 1], states[i]);
      ExpandRows(c, states[i - 1], picks[i - 1]);
      assert picks[..i] == picks[..i - 1] + [picks[i - 1]];
      forall a, b | 0 <= a < b < i
        ensures picks[a] != picks[b]
      {
        assert picks[a] in picks[..i - 1];
      }
    }
  }

  // ---- the Hop table: unique on (traceId, txHash, fromAddr, toAddr), one traceId per trace ----

  type DbKey = (string, string, string)

  function DbKeyOf(r: Row): DbKey {
    (r.edge.txHash, r.from.addr, r.edge.to)
  }

  /** hop.createMany with skipDuplicates: a row whose unique key is taken is dropped. */
  function CreateMany(stored: map<DbKey, Row>, rows: seq<Row>): map<DbKey, Row> {
    if rows == [] then stored
    else
      var before := CreateMany(stored, rows[..|rows| - 1]);
      var last := rows[|rows| - 1];
      if DbKeyOf(last) in before then before else before[DbKeyOf(last) := last]
  }

  lemma {:induction false} CreateManyKeys(stored: map<DbKey, Row>, rows: seq<Row>)
    ensures forall k :: k in CreateMany(stored, rows) <==> k in stored || k in BagBy(rows, DbKeyOf)
    ensures forall k :: k in stored ==> CreateMany(stored, rows)[k] == stored[k]
  {
    if rows != [] {
      CreateManyKeys(stored, rows[..|rows| - 1]);
    }
  }

  /** The stored count equals the number of rows handed over exactly when no two rows share
      (txHash, fromAddr, toAddr): the idx is not part of the table's key. */
  lemma {:induction false} StoredCount(rows: seq<Row>)
    ensures |CreateMany(map[], rows)| <= |rows|
    ensures |CreateMany(map[], rows)| == |rows| <==> Unique(BagBy(rows, DbKeyOf))
  {
    if rows != [] {
      var init, last := rows[..|rows| - 1], rows[|rows| - 1];
      StoredCount(init);
      CreateManyKeys(map[], init);
      var bag := BagBy(init, DbKeyOf);
      assert BagBy(rows, DbKeyOf) == bag + multiset{DbKeyOf(last)};
      if DbKeyOf(last) in CreateMany(map[], init) {
        assert BagBy(rows, DbKeyOf)[DbKeyOf(last)] >= 2;
      } else {
        var grown := CreateMany(map[], init)[DbKeyOf(last) := last];
        assert |grown| == |CreateMany(map[], init)| + 1;
        if Unique(bag) {
          assert Unique(bag + multiset{DbKeyOf(last)});
        }
        if Unique(BagBy(rows, DbKeyOf)) {
          BagWithin(bag, BagBy(rows, DbKeyOf));
        }
      }
    }
  }

  lemma {:induction false} UniqueIff<T(!new), K(!new)>(s: seq<T>, f: T -> K)
    ensures Unique(BagBy(s, f)) <==> forall i, j :: 0 <= i < j < |s| ==> f(s[i]) != f(s[j])
  {
    if s != [] {
      var n := |s| - 1;
      var init, last := s[..n], s[n];
      var bag := BagBy(init, f);
      UniqueIff(init, f);
      BagHas(init, f, f(last));
      assert BagBy(s, f) == bag + multiset{f(last)};
      assert (exists x :: x in init && f(x) == f(last)) <==> exists i :: 0 <= i < n && f(s[i]) == f(last);
      if Unique(BagBy(s, f)) {
        BagWithin(bag, BagBy(s, f));
        assert BagBy(s, f)[f(last)] <= 1;
      } else {
        var k :| BagBy(s, f)[k] > 1;
        assert bag[k] > 1 || k == f(last);
      }
    }
  }

  /** The table takes two rows for one: the same transaction between the same two addresses. */
  predicate OneStored(a: Row, b: Row) {
    a.edge.txHash == b.edge.txHash && a.from.addr == b.from.addr && a.edge.to == b.edge.to
  }

  /** All rows are stored exactly when no two are one to the table. */
  lemma AllStoredIff(rows: seq<Row>)
    ensures |CreateMany(map[], rows)| == |rows| <==> forall i, j :: 0 <= i < j < |rows| ==> !OneStored(rows[i], rows[j])
  {
    hide BagBy, CreateMany;
    StoredCount(rows);
    UniqueIff(rows, DbKeyOf);
  }

  /** Two rows of one node that the engine keeps apart by idx collapse into one stored row. */
  lemma StoredRowLost(n: Node, t: Transfer, u: Transfer)
    requires t.txHash == u.txHash && t.to == u.to && t.idx != u.idx
    ensures UniqueKeys([t, u])
    ensures |WithRows([], n, [t, u])| == 2 && |CreateMany(map[], WithRows([], n, [t, u]))| == 1
  {
    BagOfTwo(t, u, EdgeKeyOf);
    var a, b := Row(1, n, t), Row(2, n, u);
    assert [t, u][..1] == [t] && [t][..0] == [];
    assert WithRows([], n, [t]) == [a];
    assert WithRows([], n, [t, u]) == [a, b];
    assert [a, b][..1] == [a] && [a][..0] == [];
    assert CreateMany(map[], [a]) == map[DbKeyOf(a) := a];
    assert CreateMany(map[], [a, b]) == map[DbKeyOf(a) := a];
  }

  lemma BagOfTwo<T, K>(x: T, y: T, f: T -> K)
    ensures BagBy([x, y], f) == multiset{f(x), f(y)}
  {
    assert [x, y][..1] == [x] && [x][..0] == [];
    assert BagBy([x], f) == multiset{f(x)};
  }

  /** A key not taken before ends up with the row it gets in an empty table. */
  lemma {:induction false} CreateManyAt(stored: map<DbKey, Row>, rows: seq<Row>, k: DbKey)
    requires k !in stored
    ensures k in CreateMany(stored, rows) <==> k in CreateMany(map[], rows)
    ensures k in CreateMany(stored, rows) ==> CreateMany(stored, rows)[k] == CreateMany(map[], rows)[k]
  {
    if rows != [] {
      CreateManyAt(stored, rows[..|rows| - 1], k);
    }
  }

  ghost predicate Within(stored: map<DbKey, Row>, table: map<DbKey, Row>) {
    forall k :: k in stored ==> k in table && table[k] == stored[k]
  }

  /** Over any rows stored before, writing leaves the table an empty one would get exactly when each of those rows
      is the very row that table holds under its key. */
  lemma StoreSettlesIff(stored: map<DbKey, Row>, rows: seq<Row>)
    ensures CreateMany(stored, rows) == CreateMany(map[], rows) <==> Within(stored, CreateMany(map[], rows))
  {
    CreateManyKeys(stored, rows);
    CreateManyKeys(map[], rows);
    if Within(stored, CreateMany(map[], rows)) {
      forall k | k in CreateMany(stored, rows) || k in CreateMany(map[], rows)
        ensures k in CreateMany(stored, rows) && k in CreateMany(map[], rows) && CreateMany(stored, rows)[k] == CreateMany(map[], rows)[k]
      {
        if k !in stored {
          CreateManyAt(stored, rows, k);
        }
      }
    }
  }

  /** A first part of the rows stores nothing but what all of them store. */
  lemma {:induction false} PrefixWithin(first: seq<Row>, all: seq<Row>)
    requires first <= all
    ensures Within(CreateMany(map[], first), CreateMany(map[], all))
    decreases |all|
  {
    if first != all {
      var k := |all| - 1;
      assert first <= all[..k];
      PrefixWithin(first, all[..k]);
    }
  }

  /** Writing a first part of the rows and then all of them stores what writing them once does. */
  lemma WriteOver(first: seq<Row>, all: seq<Row>)
    requires first <= all
    ensures CreateMany(CreateMany(map[], first), all) == CreateMany(map[], all)
  {
    PrefixWithin(first, all);
    StoreSettlesIff(CreateMany(map[], first), all);
  }

  // ---- the graph: MERGE on (chain, from)-[tx, idx]->(chain, to), then SET ----

  type GraphKey = (Node, string, EdgeKey)

  function GraphKeyOf(r: Row): GraphKey {
    (r.from, r.edge.to, EdgeKeyOf(r.edge))
  }

  function MergeAll(graph: map<GraphKey, Transfer>, rows: seq<Row>): map<GraphKey, Transfer> {
    if rows == [] then graph
    else MergeAll(graph, rows[..|rows| - 1])[GraphKeyOf(rows[|rows| - 1]) := rows[|rows| - 1].edge]
  }

  lemma {:induction false} MergeAllTwice(graph: map<GraphKey, Transfer>, a: seq<Row>, b: seq<Row>)
    ensures MergeAll(MergeAll(graph, a), b) == MergeAll(graph, a + b)
  {
    if b == [] {
      assert a + b == a;
    } else {
      assert (a + b)[..|a + b| - 1] == a + b[..|b| - 1];
      MergeAllTwice(graph, a, b[..|b| - 1]);
    }
  }

  ghost predicate Untouched(rows: seq<Row>, key: GraphKey) {
    forall r :: r in rows ==> GraphKeyOf(r) != key
  }

  /** Where two graphs agree outside the keys of some rows, merging those rows makes them equal. */
  lemma {:induction false} MergeSettles(g: map<GraphKey, Transfer>, h: map<GraphKey, Transfer>, rows: seq<Row>)
    requires forall k :: Untouched(rows, k) ==> (k in g <==> k in h) && (k in g ==> g[k] == h[k])
    ensures MergeAll(g, rows) == MergeAll(h, rows)
    decreases |rows|
  {
    if rows == [] {
      assert g == h;
    } else {
      var k := |rows| - 1;
      var key, edge := GraphKeyOf(rows[k]), rows[k].edge;
      MergeCommutes(g, rows[..k], key, edge);
      MergeCommutes(h, rows[..k], key, edge);
      forall q | Untouched(rows[..k], q)
        ensures (q in g[key := edge] <==> q in h[key := edge]) && (q in g[key := edge] ==> g[key := edge][q] == h[key := edge][q])
      {
        assert q != key ==> Untouched(rows, q) by {
          assert rows == rows[..k] + [rows[k]];
        }
      }
      MergeSettles(g[key := edge], h[key := edge], rows[..k]);
    }
  }

  /** Setting a key last makes setting it first irrelevant. */
  lemma {:induction false} MergeCommutes(g: map<GraphKey, Transfer>, rows: seq<Row>, key: GraphKey, edge: Transfer)
    ensures MergeAll(g, rows)[key := edge] == MergeAll(g[key := edge], rows)[key := edge]
  {
    if rows != [] {
      var k := |rows| - 1;
      MergeCommutes(g, rows[..k], key, edge);
      var a: map<GraphKey, Transfer>, b: map<GraphKey, Transfer> := MergeAll(g, rows[..k]), MergeAll(g[key := edge], rows[..k]);
      var q: GraphKey, e: Transfer := GraphKeyOf(rows[k]), rows[k].edge;
      var a': map<GraphKey, Transfer>, b': map<GraphKey, Transfer> := a[q := e], b[q := e];
      var x', y' := a'[key := edge], b'[key := edge];
      forall x | x in x' || x in y'
        ensures x in x' && x in y' && x'[x] == y'[x]
      {
        assert x in a[key := edge] <==> x in b[key := edge];
        assert x in a[key := edge] ==> a[key := edge][x] == b[key := edge][x];
      }
      assert x' == y';
    }
  }

  lemma {:induction false} MergeFrame(g: map<GraphKey, Transfer>, rows: seq<Row>, key: GraphKey)
    requires Untouched(rows, key)
    ensures (key in MergeAll(g, rows) <==> key in g) && (key in g ==> MergeAll(g, rows)[key] == g[key])
  {
    if rows != [] {
      var k := |rows| - 1;
      assert rows == rows[..k] + [rows[k]];
      MergeFrame(g, rows[..k], key);
    }
  }

  ghost predicate SameAt(g: map<GraphKey, Transfer>, h: map<GraphKey, Transfer>, k: GraphKey) {
    (k in g <==> k in h) && (k in g ==> g[k] == h[k])
  }

  /** Merging the same rows into two graphs makes them equal exactly when they agree on every edge those rows do not name. */
  lemma MergeSettlesIff(g: map<GraphKey, Transfer>, h: map<GraphKey, Transfer>, rows: seq<Row>)
    ensures MergeAll(g, rows) == MergeAll(h, rows) <==> forall k :: Untouched(rows, k) ==> SameAt(g, h, k)
  {
    if forall k :: Untouched(rows, k) ==> SameAt(g, h, k) {
      MergeSettles(g, h, rows);
    } else {
      var k :| Untouched(rows, k) && !SameAt(g, h, k);
      MergeFrame(g, rows, k);
      MergeFrame(h, rows, k);
    }
  }

  lemma MergeOver(graph: map<GraphKey, Transfer>, first: seq<Row>, all: seq<Row>)
    requires first <= all
    ensures MergeAll(MergeAll(graph, first), all) == MergeAll(graph, all)
  {
    forall k | Untouched(all, k)
      ensures (k in MergeAll(graph, first) <==> k in graph) && (k in graph ==> MergeAll(graph, first)[k] == graph[k])
    {
      assert forall r :: r in first ==> r in all;
      MergeFrame(graph, first, k);
    }
    MergeSettles(MergeAll(graph, first), graph, all);
  }

  /** The graph takes two rows for one edge: the same transaction and number between the same two nodes. */
  predicate OneMerged(a: Row, b: Row) {
    && a.from == b.from && a.edge.to == b.edge.to
    && a.edge.txHash == b.edge.txHash && a.edge.idx == b.edge.idx
  }

  lemma {:induction false} MergedIff(rows: seq<Row>, k: GraphKey)
    ensures k in MergeAll(map[], rows) <==> !Untouched(rows, k)
  {
    if rows != [] {
      var n := |rows| - 1;
      assert rows == rows[..n] + [rows[n]];
      MergedIff(rows[..n], k);
    }
  }

  /** Every row is an edge of its own exactly when no two are one to the graph. */
  lemma {:induction false} AllMergedIff(rows: seq<Row>)
    ensures |MergeAll(map[], rows)| <= |rows|
    ensures |MergeAll(map[], rows)| == |rows| <==> forall i, j :: 0 <= i < j < |rows| ==> !OneMerged(rows[i], rows[j])
  {
    if rows != [] {
      var n := |rows| - 1;
      AllMergedIff(rows[..n]);
      var before, key := MergeAll(map[], rows[..n]), GraphKeyOf(rows[n]);
      MergedIff(rows[..n], key);
      assert key in before <==> exists i :: 0 <= i < n && OneMerged(rows[i], rows[n]) by {
        if r :| r in rows[..n] && GraphKeyOf(r) == key {
          var i :| 0 <= i < n && rows[..n][i] == r;
          assert OneMerged(rows[i], rows[n]);
        }
        if i :| 0 <= i < n && OneMerged(rows[i], rows[n]) {
          assert rows[..n][i] in rows[..n];
        }
      }
      SizeAfter(before, key, rows[n].edge);
    }
  }

  lemma SizeAfter<K, V>(m: map<K, V>, k: K, v: V)
    ensures |m[k := v]| == |m| + if k in m then 0 else 1
  {
    assert m[k := v].Keys == m.Keys + {k};
  }
}
