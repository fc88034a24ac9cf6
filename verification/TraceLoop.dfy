// workers/trace/engine.ts: the loop of runTrace with its heap, as a function of what the adapters answer.
// The order of equal taints is the heap's, so two attempts that get the same answers do the same.
module TraceLoop {
  import opened Wrappers
  import opened Taints
  import opened TaintQueue
  import opened Sequences
  import opened Transfers
  import opened TraceModel
  import opened TraceRows
  import opened TracePaths

  type Heap = seq<HeapEntry<Node>>

  datatype Loop = Loop(s: State, heap: Heap, processed: nat)

  // ---- the heap entries one expansion pushes ----

  function ChildPush(s: State, child: Node, share: real, hop: nat, ts: int): Heap {
    if child in s.expanded then [] else [HeapEntry(child, Arrive(s.nodes, child, share, hop, ts).taint)]
  }

  function LegPush(c: Config, s: State, n: Node, m: Meta, leg: Transfer): Heap {
    var resolved := c.resolveBridge(Node(n.chain, leg.to), leg);
    var share := BridgeShare(c.job, m.taint, leg);
    if resolved.Some? && share > 0.0 then ChildPush(s, resolved.value, share, m.hop + 1, leg.ts) else []
  }

  function LegPushes(c: Config, s: State, n: Node, m: Meta, legs: seq<Transfer>): Heap {
    if legs == [] then []
    else
      var k := |legs| - 1;
      LegPushes(c, s, n, m, legs[..k]) + LegPush(c, CrossBridges(c, s, n, m, legs[..k]), n, m, legs[k])
  }

  function EdgePush(s: State, n: Node, m: Meta, shares: map<EdgeKey, real>, edge: Transfer): Heap {
    var share := ShareOf(shares, edge);
    if share > 0.0 then ChildPush(s, Node(n.chain, edge.to), share, m.hop + 1, edge.ts) else []
  }

  function TopPushes(s: State, n: Node, m: Meta, shares: map<EdgeKey, real>, top: seq<Transfer>): Heap {
    if top == [] then []
    else
      var k := |top| - 1;
      TopPushes(s, n, m, shares, top[..k]) + EdgePush(PushTop(s, n, m, shares, top[..k]), n, m, shares, top[k])
  }

  function FanOutPushes(c: Config, s: State, n: Node, m: Meta, legs: seq<Transfer>, top: seq<Transfer>): Heap {
    var crossed := CrossBridges(c, s, n, m, legs);
    LegPushes(c, s, n, m, legs) +
    TopPushes(crossed.(rows := WithRows(crossed.rows, n, top)), n, m, Shares(c.job, m.taint, top), top)
  }

  function ExpandPushes(c: Config, s: State, n: Node): Heap
    requires n in s.nodes
  {
    match PlanOf(c, n, s.nodes[n])
    case FanOut(legs, top) => FanOutPushes(c, Mark(s, n), n, s.nodes[n], legs, top)
    case _ => []
  }

  function PushAll(h: Heap, es: Heap): Heap {
    if es == [] then h else Pushed(PushAll(h, es[..|es| - 1]), es[|es| - 1])
  }

  lemma {:induction false} PushAllTwice(h: Heap, a: Heap, b: Heap)
    ensures PushAll(PushAll(h, a), b) == PushAll(h, a + b)
  {
    if b == [] {
      assert a + b == a;
    } else {
      var k := |b| - 1;
      assert (a + b)[..|a + b| - 1] == a + b[..k];
      PushAllTwice(h, a, b[..k]);
    }
  }

  lemma PushAllOne(h: Heap, e: HeapEntry<Node>)
    ensures PushAll(h, [e]) == Pushed(h, e) && PushAll(h, []) == h
  {
    assert [e][..0] == [];
  }

  // ---- the loop ----

  function Start(c: Config): Loop {
    Loop(Init(c), [HeapEntry(c.job.seed, Init(c).nodes[c.job.seed].taint)], 0)
  }

  predicate Going(c: Config, l: Loop) {
    l.heap != [] && l.processed < c.maxNodes
  }

  /** The popped entry is out of date, or its address expanded already. */
  predicate Stale(l: Loop)
    requires l.heap != []
  {
    var e := l.heap[0];
    e.key !in l.s.nodes || l.s.nodes[e.key].taint != e.taint || e.key in l.s.expanded
  }

  /** The next address is one whose transfers an adapter fails to give. */
  predicate Throws(c: Config, l: Loop) {
    Going(c, l) && !Stale(l) && PlanOf(c, l.heap[0].key, l.s.nodes[l.heap[0].key]).Fails?
  }

  function Next(c: Config, l: Loop): Loop
    requires Going(c, l)
  {
    var n := l.heap[0].key;
    if Stale(l) then Loop(l.s, Popped(l.heap), l.processed)
    else Loop(Expand(c, l.s, n), PushAll(Popped(l.heap), ExpandPushes(c, l.s, n)), l.processed + 1)
  }

  /** Where the loop comes to rest: done, or before the address whose adapter throws. */
  function Walked(c: Config, l: Loop): Loop
    decreases if l.processed < c.maxNodes then c.maxNodes - l.processed else 0, |l.heap|
  {
    if !Going(c, l) || Throws(c, l) then l else Walked(c, Next(c, l))
  }

  /** The rows a whole attempt produces. */
  function RowsOf(c: Config): seq<Row> {
    Walked(c, Start(c)).s.rows
  }

  predicate Completes(c: Config) {
    !Throws(c, Walked(c, Start(c)))
  }

  // ---- a later attempt gets at least the answers an earlier one got ----

  /** c' answers whatever c answers, and alike, prices included. The provider cache keeps confirmed transfers, but not
      their prices: TraceRetry says what becomes of a retry that is answered otherwise. */
  ghost predicate Extends(c: Config, c': Config) {
    && c' == c.(outflows := c'.outflows, inflows := c'.inflows)
    && (forall n, since :: c.outflows(n, since).Some? ==> c'.outflows(n, since) == c.outflows(n, since))
    && (forall n, since :: c.inflows(n, since).Some? ==> c'.inflows(n, since) == c.inflows(n, since))
  }

  lemma PlanStays(c: Config, c': Config, n: Node, m: Meta)
    requires Extends(c, c') && !PlanOf(c, n, m).Fails?
    ensures PlanOf(c', n, m) == PlanOf(c, n, m)
  {
    if c.labelOf(n).None? && m.hop < c.job.maxHops {
      var collected := c.outflows(n, Since(c.job, m));
      assert c'.outflows(n, Since(c.job, m)) == collected;
      SameRelevant(c, c', m, collected.value);
      OutflowPlanStays(c, c', n, m, Relevant(c, m, collected.value));
    }
  }

  lemma SameRelevant(c: Config, c': Config, m: Meta, collected: seq<Transfer>)
    requires Extends(c, c')
    ensures Relevant(c', m, collected) == Relevant(c, m, collected)
  {
    FilterAgrees(collected, (t: Transfer) => t.amount != "0" && InWindow(c.job, t.ts) && t.ts >= Since(c.job, m),
                 (t: Transfer) => t.amount != "0" && InWindow(c'.job, t.ts) && t.ts >= Since(c'.job, m));
  }

  lemma OutflowPlanStays(c: Config, c': Config, n: Node, m: Meta, outs: seq<Transfer>)
    requires Extends(c, c') && !PlanOutflows(c, n, m, outs).Fails?
    ensures PlanOutflows(c', n, m, outs) == PlanOutflows(c, n, m, outs)
  {
    hide Split, SwapLegs, TopByUsd;
    assert forall t :: ToRouter(c', n, t) == ToRouter(c, n, t);
    if exists t :: t in outs && ToRouter(c, n, t) {
      var inbound := c.inflows(n, Since(c.job, m));
      if |set t | t in outs :: t.to| <= c.highDegreeCutoff {
        assert inbound.Some? && c'.inflows(n, Since(c.job, m)) == inbound;
        SameSwapLegs(c, c', n, outs, inbound.value);
        SameSplit(c, c', n, outs, SwapLegs(c, n, outs, inbound.value));
      }
    } else {
      SameSplit(c, c', n, outs, {});
    }
  }

  lemma SameSwapLegs(c: Config, c': Config, n: Node, outs: seq<Transfer>, inbound: seq<Transfer>)
    requires Extends(c, c')
    ensures SwapLegs(c', n, outs, inbound) == SwapLegs(c, n, outs, inbound)
  {
  }

  lemma SameSplit(c: Config, c': Config, n: Node, outs: seq<Transfer>, swapLegs: set<EdgeKey>)
    requires Extends(c, c')
    ensures Split(c', n, outs, swapLegs) == Split(c, n, outs, swapLegs)
  {
    var nonSwap := Filter(outs, (t: Transfer) => EdgeKeyOf(t) !in swapLegs);
    FilterAgrees(outs, (t: Transfer) => EdgeKeyOf(t) !in swapLegs, (t: Transfer) => EdgeKeyOf(t) !in swapLegs);
    FilterAgrees(nonSwap, (t: Transfer) => ToBridge(c, n, t), (t: Transfer) => ToBridge(c', n, t));
    FilterAgrees(nonSwap, (t: Transfer) => !ToBridge(c, n, t), (t: Transfer) => !ToBridge(c', n, t));
    var candidates := Filter(nonSwap, (t: Transfer) => !ToBridge(c, n, t));
    FilterAgrees(candidates, (t: Transfer) => MeetsMinValue(t.usd, c.job.minValueUsd), (t: Transfer) => MeetsMinValue(t.usd, c'.job.minValueUsd));
  }

  lemma {:induction false} CrossingsStay(c: Config, c': Config, s: State, n: Node, m: Meta, legs: seq<Transfer>)
    requires Extends(c, c')
    ensures CrossBridges(c', s, n, m, legs) == CrossBridges(c, s, n, m, legs)
    ensures LegPushes(c', s, n, m, legs) == LegPushes(c, s, n, m, legs)
  {
    if legs != [] {
      CrossingsStay(c, c', s, n, m, legs[..|legs| - 1]);
    }
  }

  lemma NextStays(c: Config, c': Config, l: Loop)
    requires Extends(c, c') && Going(c, l) && !Throws(c, l)
    ensures Going(c', l) && !Throws(c', l) && Next(c', l) == Next(c, l)
  {
    if !Stale(l) {
      hide PlanOf, CrossBridges, LegPushes, TopPushes, PushTop, WithRows, Shares;
      var n := l.heap[0].key;
      var m := l.s.nodes[n];
      PlanStays(c, c', n, m);
      if PlanOf(c, n, m).FanOut? {
        CrossingsStay(c, c', Mark(l.s, n), n, m, PlanOf(c, n, m).bridgeLegs);
      }
    }
  }

  lemma NextRows(c: Config, l: Loop)
    requires Going(c, l)
    ensures l.s.rows <= Next(c, l).s.rows
  {
    hide PlanOf, Expand;
    if !Stale(l) {
      var n := l.heap[0].key;
      ExpandRows(c, l.s, n);
      RowsExtend(l.s.rows, n, PlanRows(PlanOf(c, n, l.s.nodes[n])));
    }
  }

  lemma {:induction false} RowsOnlyGrow(c: Config, l: Loop)
    ensures l.s.rows <= Walked(c, l).s.rows
    decreases if l.processed < c.maxNodes then c.maxNodes - l.processed else 0, |l.heap|
  {
    hide Next, Throws;
    if Going(c, l) && !Throws(c, l) {
      NextRows(c, l);
      Shrinks(c, l);
      RowsOnlyGrow(c, Next(c, l));
    }
  }

  lemma Shrinks(c: Config, l: Loop)
    requires Going(c, l)
    ensures var next := Next(c, l);
      next.processed == l.processed + 1 || (next.processed == l.processed && |next.heap| < |l.heap|)
  {
  }

  /** The later attempt goes through the same steps as the earlier one, as far as that came. */
  lemma {:induction false} WalkResumes(c: Config, c': Config, l: Loop)
    requires Extends(c, c')
    ensures Walked(c, l).s.rows <= Walked(c', l).s.rows
    ensures !Throws(c, Walked(c, l)) ==> Walked(c', l) == Walked(c, l)
    decreases if l.processed < c.maxNodes then c.maxNodes - l.processed else 0, |l.heap|
  {
    hide Next, Throws;
    if !Going(c, l) {
    } else if Throws(c, l) {
      RowsOnlyGrow(c', l);
    } else {
      NextStays(c, c', l);
      Shrinks(c, l);
      WalkResumes(c, c', Next(c, l));
    }
  }
}
