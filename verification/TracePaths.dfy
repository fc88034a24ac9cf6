// Every address a trace reaches hangs on the seed by hop rows the trace has written.
module TracePaths {
  import opened Wrappers
  import opened Sequences
  import opened Transfers
  import opened TraceModel
  import opened TraceRows

  /** A written row and the address its transfer passed taint to. */
  type Carriage = iset<(Row, Node)>

  /** p is a chain of rows that passed taint on, from the seed to n. */
  ghost predicate Walk(c: Config, carried: Carriage, p: seq<Row>, n: Node) {
    if p == [] then n == c.job.seed
    else
      var last := p[|p| - 1];
      (last, n) in carried && Walk(c, carried, p[..|p| - 1], last.from)
  }

  function ArrivalOf(c: Config, p: seq<Row>): int {
    if p == [] then c.job.createdAt else p[|p| - 1].edge.ts
  }

  /** The transfers of p lie in the window and never run back in time. */
  ghost predicate Chronological(c: Config, p: seq<Row>) {
    p == [] ||
    (InWindow(c.job, p[|p| - 1].edge.ts) && ArrivalOf(c, p[..|p| - 1]) <= p[|p| - 1].edge.ts &&
     Chronological(c, p[..|p| - 1]))
  }

  ghost predicate ReachedAt(c: Config, carried: Carriage, n: Node, ts: int) {
    exists p :: Walk(c, carried, p, n) && Chronological(c, p) && ArrivalOf(c, p) == ts
  }

  ghost predicate ReachedIn(c: Config, carried: Carriage, n: Node, hops: nat) {
    exists p :: Walk(c, carried, p, n) && |p| == hops
  }

  function HopLimit(c: Config): nat {
    if c.job.maxHops < 0 then 0 else c.job.maxHops
  }

  ghost predicate Reached(c: Config, carried: Carriage, n: Node, m: Meta) {
    ReachedAt(c, carried, n, m.firstTaintedAt) && ReachedIn(c, carried, n, m.hop) && m.hop <= HopLimit(c)
  }

  ghost predicate AllReached(c: Config, carried: Carriage, s: State) {
    forall n :: n in s.nodes ==> Reached(c, carried, n, s.nodes[n])
  }

  lemma {:induction false} WalkGrows(c: Config, carried: Carriage, more: Carriage, p: seq<Row>, n: Node)
    requires Walk(c, carried, p, n) && carried <= more
    ensures Walk(c, more, p, n)
  {
    if p != [] {
      WalkGrows(c, carried, more, p[..|p| - 1], p[|p| - 1].from);
    }
  }

  lemma ReachedGrows(c: Config, carried: Carriage, more: Carriage, n: Node, m: Meta)
    requires Reached(c, carried, n, m) && carried <= more
    ensures Reached(c, more, n, m)
  {
    var p :| Walk(c, carried, p, n) && Chronological(c, p) && ArrivalOf(c, p) == m.firstTaintedAt;
    var w :| Walk(c, carried, w, n) && |w| == m.hop;
    WalkGrows(c, carried, more, p, n);
    WalkGrows(c, carried, more, w, n);
  }

  lemma AllReachedGrows(c: Config, carried: Carriage, more: Carriage, s: State)
    requires AllReached(c, carried, s) && carried <= more
    ensures AllReached(c, more, s)
  {
    forall n | n in s.nodes
      ensures Reached(c, more, n, s.nodes[n])
    {
      ReachedGrows(c, carried, more, n, s.nodes[n]);
    }
  }

  ghost predicate Written(rows: seq<Row>, n: Node, e: Transfer) {
    exists r :: r in rows && r.from == n && r.edge == e
  }

  lemma {:induction false} RowsExtend(rows: seq<Row>, from: Node, edges: seq<Transfer>)
    ensures rows <= WithRows(rows, from, edges)
    ensures forall e :: e in edges ==> Written(WithRows(rows, from, edges), from, e)
  {
    if edges != [] {
      var init, last := edges[..|edges| - 1], edges[|edges| - 1];
      RowsExtend(rows, from, init);
      var before := WithRows(rows, from, init);
      var r := Row(|before| + 1, from, last);
      assert r in before + [r];
      forall e | e in edges
        ensures Written(WithRows(rows, from, edges), from, e)
      {
        if e in init {
          var r' :| r' in before && r'.from == from && r'.edge == e;
          assert r' in before + [r];
        } else {
          assert e == last && r.edge == e;
        }
      }
    }
  }

  /** A transfer the plan may follow out of a node with metadata m. */
  ghost predicate Followable(c: Config, m: Meta, e: Transfer) {
    InWindow(c.job, e.ts) && e.ts >= m.firstTaintedAt && m.hop < c.job.maxHops
  }

  lemma PlanFollows(c: Config, n: Node, m: Meta)
    ensures var plan := PlanOf(c, n, m);
      plan.FanOut? ==>
        (forall e :: e in plan.bridgeLegs ==> Followable(c, m, e)) &&
        (forall e :: e in plan.top ==> Followable(c, m, e) && MeetsMinValue(e.usd, c.job.minValueUsd))
  {
    var plan := PlanOf(c, n, m);
    if plan.FanOut? {
      forall e | e in plan.top
        ensures Followable(c, m, e) && MeetsMinValue(e.usd, c.job.minValueUsd)
      {
        var outs := Relevant(c, m, c.outflows(n, Since(c.job, m)).value);
        TopIsFollowable(c, n, m, outs, e);
      }
    }
  }

  lemma TopIsFollowable(c: Config, n: Node, m: Meta, outs: seq<Transfer>, e: Transfer)
    requires PlanOutflows(c, n, m, outs).FanOut? && e in PlanOutflows(c, n, m, outs).top
    ensures e in outs && MeetsMinValue(e.usd, c.job.minValueUsd)
  {
    var legs := if exists t :: t in outs && ToRouter(c, n, t)
      then SwapLegs(c, n, outs, c.inflows(n, Since(c.job, m)).value) else {};
    var nonSwap := Filter(outs, (t: Transfer) => EdgeKeyOf(t) !in legs);
    var candidates := Filter(nonSwap, (t: Transfer) => !ToBridge(c, n, t));
    var priced := Filter(candidates, (t: Transfer) => MeetsMinValue(t.usd, c.job.minValueUsd));
    assert PlanOutflows(c, n, m, outs).top == SliceTo(Sort(priced, ByUsd), c.topK);
    SortMultiset(priced, ByUsd);
    assert e in multiset(Sort(priced, ByUsd));
    assert e in priced;
  }

  /** A carried row r out of n prolongs n's chains by one. */
  lemma RowProlongs(c: Config, carried: Carriage, n: Node, m: Meta, r: Row, child: Node)
    requires Reached(c, carried, n, m)
    requires (r, child) in carried && r.from == n && Followable(c, m, r.edge)
    ensures ReachedAt(c, carried, child, r.edge.ts) && ReachedIn(c, carried, child, m.hop + 1)
  {
    var p :| Walk(c, carried, p, n) && Chronological(c, p) && ArrivalOf(c, p) == m.firstTaintedAt;
    var w :| Walk(c, carried, w, n) && |w| == m.hop;
    var p', w' := p + [r], w + [r];
    assert p'[..|p|] == p && w'[..|w|] == w;
    assert Walk(c, carried, p', child) && Chronological(c, p') && ArrivalOf(c, p') == r.edge.ts;
    assert Walk(c, carried, w', child) && |w'| == m.hop + 1;
  }

  /** Some row of n with transfer e carried taint to child. */
  ghost predicate Carries(carried: Carriage, n: Node, e: Transfer, child: Node) {
    exists r: Row :: (r, child) in carried && r.from == n && r.edge == e
  }

  lemma PushKeepsReached(c: Config, carried: Carriage, s: State, n: Node, m: Meta, e: Transfer, child: Node, share: real)
    requires AllReached(c, carried, s) && Reached(c, carried, n, m)
    requires Carries(carried, n, e, child) && Followable(c, m, e)
    ensures AllReached(c, carried, PushChild(s, child, share, m.hop + 1, e.ts))
  {
    var r: Row :| (r, child) in carried && r.from == n && r.edge == e;
    RowProlongs(c, carried, n, m, r, child);
    var s' := PushChild(s, child, share, m.hop + 1, e.ts);
    forall k | k in s'.nodes
      ensures Reached(c, carried, k, s'.nodes[k])
    {
      if k in s.nodes {
        assert Reached(c, carried, k, s.nodes[k]);
      }
    }
  }

  /** The code follows leg onto the far chain, or edge e to its recipient: the share is positive. */
  ghost predicate LegPasses(c: Config, n: Node, m: Meta, leg: Transfer, child: Node) {
    c.resolveBridge(Node(n.chain, leg.to), leg) == Some(child) && BridgeShare(c.job, m.taint, leg) > 0.0
  }

  ghost predicate EdgePasses(n: Node, shares: map<EdgeKey, real>, e: Transfer, child: Node) {
    child == Node(n.chain, e.to) && ShareOf(shares, e) > 0.0
  }

  lemma {:induction false} CrossBridgesReached(c: Config, carried: Carriage, s: State, n: Node, m: Meta, legs: seq<Transfer>)
    requires AllReached(c, carried, s) && Reached(c, carried, n, m)
    requires forall e :: e in legs ==> Followable(c, m, e)
    requires forall e, child :: e in legs && LegPasses(c, n, m, e, child) ==> Carries(carried, n, e, child)
    ensures AllReached(c, carried, CrossBridges(c, s, n, m, legs))
  {
    if legs != [] {
      hide Carries, Reached, BridgeShare;
      var k := |legs| - 1;
      CrossBridgesReached(c, carried, s, n, m, legs[..k]);
      var s1, leg := CrossBridges(c, s, n, m, legs[..k]), legs[k];
      assert leg in legs;
      var resolved := c.resolveBridge(Node(n.chain, leg.to), leg);
      if resolved.Some? && BridgeShare(c.job, m.taint, leg) > 0.0 {
        assert LegPasses(c, n, m, leg, resolved.value);
        PushKeepsReached(c, carried, s1.(rows := WithRows(s1.rows, n, [leg])), n, m, leg, resolved.value, BridgeShare(c.job, m.taint, leg));
      }
    }
  }

  lemma {:induction false} PushTopReached(c: Config, carried: Carriage, s: State, n: Node, m: Meta, shares: map<EdgeKey, real>, top: seq<Transfer>)
    requires AllReached(c, carried, s) && Reached(c, carried, n, m)
    requires forall e :: e in top ==> Followable(c, m, e)
    requires forall e, child :: e in top && EdgePasses(n, shares, e, child) ==> Carries(carried, n, e, child)
    ensures AllReached(c, carried, PushTop(s, n, m, shares, top))
  {
    if top != [] {
      hide Carries, Reached;
      var e := top[|top| - 1];
      assert e in top;
      PushTopReached(c, carried, s, n, m, shares, top[..|top| - 1]);
      if ShareOf(shares, e) > 0.0 {
        assert EdgePasses(n, shares, e, Node(n.chain, e.to));
        PushKeepsReached(c, carried, PushTop(s, n, m, shares, top[..|top| - 1]), n, m, e, Node(n.chain, e.to), ShareOf(shares, e));
      }
    }
  }

  lemma FanOutReached(c: Config, carried: Carriage, s: State, n: Node, m: Meta, legs: seq<Transfer>, top: seq<Transfer>)
    requires AllReached(c, carried, s) && Reached(c, carried, n, m)
    requires forall e :: e in legs ==> Followable(c, m, e)
    requires forall e :: e in top ==> Followable(c, m, e)
    requires forall e, child :: e in legs && LegPasses(c, n, m, e, child) ==> Carries(carried, n, e, child)
    requires forall e, child :: e in top && EdgePasses(n, Shares(c.job, m.taint, top), e, child) ==> Carries(carried, n, e, child)
    ensures AllReached(c, carried, FanOutStep(c, s, n, m, legs, top))
  {
    hide Carries, Reached, LegPasses, EdgePasses, Shares;
    CrossBridgesReached(c, carried, s, n, m, legs);
    var s2 := CrossBridges(c, s, n, m, legs);
    PushTopReached(c, carried, s2.(rows := WithRows(s2.rows, n, top)), n, m, Shares(c.job, m.taint, top), top);
  }

  /** The transfers the expansion of n passes taint along. */
  ghost predicate Passes(c: Config, s: State, n: Node, e: Transfer, child: Node)
    requires n in s.nodes
  {
    var m := s.nodes[n];
    match PlanOf(c, n, m)
    case FanOut(legs, top) =>
      (e in legs && LegPasses(c, n, m, e, child)) || (e in top && EdgePasses(n, Shares(c.job, m.taint, top), e, child))
    case _ => false
  }

  /** The rows the expansion of n writes for them. */
  ghost function CarriedBy(c: Config, s: State, n: Node): Carriage
    requires n in s.nodes
  {
    iset r: Row, child: Node | r in Expand(c, s, n).rows && r.from == n && Passes(c, s, n, r.edge, child) :: (r, child)
  }

  lemma CarriedHas(c: Config, s: State, n: Node, e: Transfer, child: Node)
    requires n in s.nodes && Passes(c, s, n, e, child)
    ensures Carries(CarriedBy(c, s, n), n, e, child)
  {
    hide Expand, PlanOf;
    ExpandRows(c, s, n);
    var edges := PlanRows(PlanOf(c, n, s.nodes[n]));
    assert e in edges;
    RowsExtend(s.rows, n, edges);
    var r :| r in Expand(c, s, n).rows && r.from == n && r.edge == e;
    assert (r, child) in CarriedBy(c, s, n);
  }

  lemma CarriesMore(carried: Carriage, more: Carriage, n: Node, e: Transfer, child: Node)
    requires Carries(carried, n, e, child) && carried <= more
    ensures Carries(more, n, e, child)
  {
  }

  lemma ExpandKeepsReached(c: Config, carried: Carriage, s: State, n: Node)
    requires n in s.nodes && AllReached(c, carried, s)
    ensures AllReached(c, carried + CarriedBy(c, s, n), Expand(c, s, n))
  {
    hide Reached, CarriedBy, Carries, PlanOf, FanOutStep, LegPasses, EdgePasses, WithRows, Shares;
    var m, s1, more := s.nodes[n], Mark(s, n), carried + CarriedBy(c, s, n);
    AllReachedGrows(c, carried, more, s);
    if PlanOf(c, n, m).FanOut? {
      PlanFollows(c, n, m);
      forall e, child | Passes(c, s, n, e, child)
        ensures Carries(more, n, e, child)
      {
        CarriedHas(c, s, n, e, child);
        CarriesMore(CarriedBy(c, s, n), more, n, e, child);
      }
      var legs, top := PlanOf(c, n, m).bridgeLegs, PlanOf(c, n, m).top;
      assert forall e, child :: e in legs && LegPasses(c, n, m, e, child) ==> Passes(c, s, n, e, child);
      assert forall e, child :: e in top && EdgePasses(n, Shares(c.job, m.taint, top), e, child) ==> Passes(c, s, n, e, child);
      FanOutReached(c, more, s1, n, m, legs, top);
    }
  }

  lemma SeedReached(c: Config)
    ensures AllReached(c, iset{}, Init(c))
  {
    var p: seq<Row> := [];
    assert Walk(c, iset{}, p, c.job.seed) && Chronological(c, p) && ArrivalOf(c, p) == c.job.createdAt && |p| == 0;
    assert ReachedAt(c, iset{}, c.job.seed, c.job.createdAt) && ReachedIn(c, iset{}, c.job.seed, 0);
  }

  /** The rows that passed taint on in the first i steps of a run. */
  ghost function CarriedUpTo(c: Config, states: seq<State>, picks: seq<Node>, i: nat): Carriage
    requires IsRun(c, states, picks) && i <= |picks|
  {
    if i == 0 then iset{}
    else
      assert Step(c, states[i - 1], picks[i - 1], states[i]);
      CarriedUpTo(c, states, picks, i - 1) + CarriedBy(c, states[i - 1], picks[i - 1])
  }

  /** In every state of every run: each address known to the trace has a chronological chain of written rows that
      passed taint on, from the seed, inside the window, arriving at its firstTaintedAt; and one of exactly `hop` rows. */
  lemma {:induction false} RunReaches(c: Config, states: seq<State>, picks: seq<Node>, i: nat)
    requires IsRun(c, states, picks) && i <= |picks|
    ensures AllReached(c, CarriedUpTo(c, states, picks, i), states[i])
    ensures forall link :: link in CarriedUpTo(c, states, picks, i) ==> link.0 in states[i].rows
  {
    hide Expand, AllReached, Init, CarriedBy;
    if i == 0 {
      SeedReached(c);
      NoCarriage(c, states, picks);
    } else {
      RunReaches(c, states, picks, i - 1);
      assert Step(c, states[i - 1], picks[i - 1], states[i]);
      OneStepMore(c, states, picks, i);
      ExpandKeepsReached(c, CarriedUpTo(c, states, picks, i - 1), states[i - 1], picks[i - 1]);
      CarriedIsWritten(c, states[i - 1], picks[i - 1]);
    }
  }

  lemma NoCarriage(c: Config, states: seq<State>, picks: seq<Node>)
    requires IsRun(c, states, picks)
    ensures CarriedUpTo(c, states, picks, 0) == iset{}
  {
  }

  lemma OneStepMore(c: Config, states: seq<State>, picks: seq<Node>, i: nat)
    requires IsRun(c, states, picks) && 0 < i <= |picks| && Step(c, states[i - 1], picks[i - 1], states[i])
    ensures CarriedUpTo(c, states, picks, i) == CarriedUpTo(c, states, picks, i - 1) + CarriedBy(c, states[i - 1], picks[i - 1])
  {
  }

  lemma CarriedIsWritten(c: Config, s: State, n: Node)
    requires n in s.nodes
    ensures s.rows <= Expand(c, s, n).rows
    ensures forall link :: link in CarriedBy(c, s, n) ==> link.0 in Expand(c, s, n).rows
  {
    hide Expand, PlanOf, Passes;
    ExpandRows(c, s, n);
    RowsExtend(s.rows, n, PlanRows(PlanOf(c, n, s.nodes[n])));
  }
}
