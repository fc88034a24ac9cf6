// workers/trace/engine.ts:169-182, 225-300: what a run leaves behind, said of everything that happened on the way: the taint
// that arrived at each address, the terminals and the rows.
module TraceArrivals {
  import opened Wrappers
  import opened Taints
  import opened Sequences
  import opened Transfers
  import opened TraceModel
  import opened TraceRows
  import opened TracePaths

  /** A share of taint that came over a transfer out of an address `hop - 1` hops out. */
  datatype Arrival = Arrival(share: real, hop: nat, ts: int)

  function Carried(a: Arrival): real {
    a.share
  }

  function Known(s: State, n: Node): Option<Meta> {
    if n in s.nodes then Some(s.nodes[n]) else None
  }

  // ---- what arrivals make of an address ----

  /** now is known when it was or something arrived; it has what it had and all shares; its hop and its first taint are the
      least of all. */
  ghost predicate Gathered(was: Option<Meta>, arrivals: seq<Arrival>, now: Option<Meta>) {
    && (now.Some? <==> was.Some? || arrivals != [])
    && (now.Some? ==>
         && now.value.taint == Plus(if was.Some? then was.value.taint else Fin(0.0), SumBy(arrivals, Carried))
         && (was.Some? ==> now.value.hop <= was.value.hop && now.value.firstTaintedAt <= was.value.firstTaintedAt)
         && (forall a :: a in arrivals ==> now.value.hop <= a.hop && now.value.firstTaintedAt <= a.ts)
         && ((was.Some? && now.value.hop == was.value.hop) || exists a :: a in arrivals && a.hop == now.value.hop)
         && ((was.Some? && now.value.firstTaintedAt == was.value.firstTaintedAt) ||
             exists a :: a in arrivals && a.ts == now.value.firstTaintedAt))
  }

  lemma {:induction false} SumAppends<T>(a: seq<T>, b: seq<T>, f: T -> real)
    ensures SumBy(a + b, f) == SumBy(a, f) + SumBy(b, f)
  {
    if b == [] {
      assert a + b == a;
    } else {
      var k := |b| - 1;
      assert (a + b)[..|a + b| - 1] == a + b[..k];
      SumAppends(a, b[..k], f);
    }
  }

  lemma NothingGathered(was: Option<Meta>)
    ensures Gathered(was, [], was)
  {
  }

  lemma GatheredTwice(was: Option<Meta>, a: seq<Arrival>, mid: Option<Meta>, b: seq<Arrival>, now: Option<Meta>)
    requires Gathered(was, a, mid) && Gathered(mid, b, now)
    ensures Gathered(was, a + b, now)
  {
    SumAppends(a, b, Carried);
    if now.Some? && mid.Some? {
      assert forall x :: x in a + b <==> x in a || x in b;
    } else if now.Some? {
      assert a == [] && a + b == b;
    }
  }

  lemma OneArrives(s: State, child: Node, share: real, hop: nat, ts: int, n: Node)
    ensures Gathered(Known(s, n), if n == child && n !in s.expanded then [Arrival(share, hop, ts)] else [],
                     Known(PushChild(s, child, share, hop, ts), n))
  {
    var a := Arrival(share, hop, ts);
    assert [a][..0] == [];
    assert SumBy([a], Carried) == share;
    assert a in [a];
  }

  // ---- what arrives while one address is expanded ----

  ghost function LegArrivals(c: Config, n: Node, m: Meta, legs: seq<Transfer>, child: Node): seq<Arrival> {
    if legs == [] then []
    else
      var rest, leg := LegArrivals(c, n, m, legs[..|legs| - 1], child), legs[|legs| - 1];
      if LegPasses(c, n, m, leg, child) then rest + [Arrival(BridgeShare(c.job, m.taint, leg), m.hop + 1, leg.ts)] else rest
  }

  ghost function EdgeArrivals(n: Node, m: Meta, shares: map<EdgeKey, real>, top: seq<Transfer>, child: Node): seq<Arrival> {
    if top == [] then []
    else
      var rest, e := EdgeArrivals(n, m, shares, top[..|top| - 1], child), top[|top| - 1];
      if EdgePasses(n, shares, e, child) then rest + [Arrival(ShareOf(shares, e), m.hop + 1, e.ts)] else rest
  }

  /** The taint that n's expansion brings to child, unless child was expanded itself. */
  ghost function Arrivals(c: Config, s: State, n: Node, child: Node): seq<Arrival>
    requires n in s.nodes
  {
    if child in s.expanded || child == n then []
    else
      var m := s.nodes[n];
      match PlanOf(c, n, m)
      case FanOut(legs, top) =>
        LegArrivals(c, n, m, legs, child) + EdgeArrivals(n, m, Shares(c.job, m.taint, top), top, child)
      case _ => []
  }

  lemma {:induction false} LegsBring(c: Config, s: State, n: Node, m: Meta, legs: seq<Transfer>, child: Node)
    ensures CrossBridges(c, s, n, m, legs).expanded == s.expanded
    ensures Gathered(Known(s, child), if child in s.expanded then [] else LegArrivals(c, n, m, legs, child),
                     Known(CrossBridges(c, s, n, m, legs), child))
  {
    hide Gathered, BridgeShare;
    if legs == [] {
      NothingGathered(Known(s, child));
    } else {
      var k := |legs| - 1;
      var leg, s1 := legs[k], CrossBridges(c, s, n, m, legs[..k]);
      LegsBring(c, s, n, m, legs[..k], child);
      LegBrings(c, s1, n, m, leg, child);
      var before := if child in s.expanded then [] else LegArrivals(c, n, m, legs[..k], child);
      var one := if child !in s.expanded && LegPasses(c, n, m, leg, child)
        then [Arrival(BridgeShare(c.job, m.taint, leg), m.hop + 1, leg.ts)] else [];
      GatheredTwice(Known(s, child), before, Known(s1, child), one, Known(CrossBridge(c, s1, n, m, leg), child));
      assert before + one == if child in s.expanded then [] else LegArrivals(c, n, m, legs, child);
    }
  }

  lemma LegBrings(c: Config, s: State, n: Node, m: Meta, leg: Transfer, child: Node)
    ensures CrossBridge(c, s, n, m, leg).expanded == s.expanded
    ensures Gathered(Known(s, child),
                     if child !in s.expanded && LegPasses(c, n, m, leg, child)
                     then [Arrival(BridgeShare(c.job, m.taint, leg), m.hop + 1, leg.ts)] else [],
                     Known(CrossBridge(c, s, n, m, leg), child))
  {
    hide Gathered, BridgeShare, WithRows;
    NothingGathered(Known(s, child));
    var s1, resolved, share := s.(rows := WithRows(s.rows, n, [leg])), c.resolveBridge(Node(n.chain, leg.to), leg), BridgeShare(c.job, m.taint, leg);
    if resolved.Some? && share > 0.0 {
      OneArrives(s1, resolved.value, share, m.hop + 1, leg.ts, child);
    }
  }

  lemma {:induction false} EdgesBring(s: State, n: Node, m: Meta, shares: map<EdgeKey, real>, top: seq<Transfer>, child: Node)
    ensures PushTop(s, n, m, shares, top).expanded == s.expanded
    ensures Gathered(Known(s, child), if child in s.expanded then [] else EdgeArrivals(n, m, shares, top, child),
                     Known(PushTop(s, n, m, shares, top), child))
  {
    hide Gathered, ShareOf;
    NothingGathered(Known(s, child));
    if top != [] {
      var k := |top| - 1;
      var e, s1 := top[k], PushTop(s, n, m, shares, top[..k]);
      var share := ShareOf(shares, e);
      EdgesBring(s, n, m, shares, top[..k], child);
      NothingGathered(Known(s1, child));
      if share > 0.0 {
        OneArrives(s1, Node(n.chain, e.to), share, m.hop + 1, e.ts, child);
      }
      var before := if child in s.expanded then [] else EdgeArrivals(n, m, shares, top[..k], child);
      var one := if child !in s.expanded && EdgePasses(n, shares, e, child) then [Arrival(share, m.hop + 1, e.ts)] else [];
      GatheredTwice(Known(s, child), before, Known(s1, child), one, Known(PushEdge(s1, n, m, shares, e), child));
      assert before + one == if child in s.expanded then [] else EdgeArrivals(n, m, shares, top, child);
    }
  }

  lemma FanOutBrings(c: Config, s: State, n: Node, m: Meta, legs: seq<Transfer>, top: seq<Transfer>, child: Node)
    ensures Gathered(Known(s, child),
                     if child in s.expanded then []
                     else LegArrivals(c, n, m, legs, child) + EdgeArrivals(n, m, Shares(c.job, m.taint, top), top, child),
                     Known(FanOutStep(c, s, n, m, legs, top), child))
  {
    hide Gathered, CrossBridges, PushTop, Shares, WithRows, LegArrivals, EdgeArrivals;
    var shares, crossed := Shares(c.job, m.taint, top), CrossBridges(c, s, n, m, legs);
    var persisted := crossed.(rows := WithRows(crossed.rows, n, top));
    LegsBring(c, s, n, m, legs, child);
    EdgesBring(persisted, n, m, shares, top, child);
    assert Known(persisted, child) == Known(crossed, child) && persisted.expanded == s.expanded;
    var a := if child in s.expanded then [] else LegArrivals(c, n, m, legs, child);
    var b := if child in s.expanded then [] else EdgeArrivals(n, m, shares, top, child);
    assert FanOutStep(c, s, n, m, legs, top) == PushTop(persisted, n, m, shares, top);
    GatheredTwice(Known(s, child), a, Known(persisted, child), b, Known(FanOutStep(c, s, n, m, legs, top), child));
    assert child in s.expanded ==> a + b == [];
  }

  lemma ExpandBrings(c: Config, s: State, n: Node, child: Node)
    requires n in s.nodes
    ensures Gathered(Known(s, child), Arrivals(c, s, n, child), Known(Expand(c, s, n), child))
  {
    hide Gathered, PlanOf, FanOutStep, Shares, WithRows, LegArrivals, EdgeArrivals;
    var m, s1 := s.nodes[n], Mark(s, n);
    assert Known(s1, child) == Known(s, child);
    NothingGathered(Known(s, child));
    match PlanOf(c, n, m)
    case FanOut(legs, top) => FanOutBrings(c, s1, n, m, legs, top, child);
    case _ =>
  }

  // ---- runs ----

  /** All that arrived at child in the first i steps. */
  ghost function ArrivalsUpTo(c: Config, states: seq<State>, picks: seq<Node>, i: nat, child: Node): seq<Arrival>
    requires IsRun(c, states, picks) && i <= |picks|
  {
    if i == 0 then []
    else
      assert Step(c, states[i - 1], picks[i - 1], states[i]);
      ArrivalsUpTo(c, states, picks, i - 1, child) + Arrivals(c, states[i - 1], picks[i - 1], child)
  }

  /** In every state of every run each address holds the sum of what arrived before its own expansion, the seed the reported
      amount besides; its hop and its first taint are the least among its arrivals. */
  lemma {:induction false} RunGathers(c: Config, states: seq<State>, picks: seq<Node>, i: nat, child: Node)
    requires IsRun(c, states, picks) && i <= |picks|
    ensures Gathered(Known(Init(c), child), ArrivalsUpTo(c, states, picks, i, child), Known(states[i], child))
  {
    hide Gathered, Expand, Arrivals, Init;
    if i == 0 {
      NothingGathered(Known(Init(c), child));
    } else {
      assert Step(c, states[i - 1], picks[i - 1], states[i]);
      RunGathers(c, states, picks, i - 1, child);
      ExpandBrings(c, states[i - 1], picks[i - 1], child);
      GatheredTwice(Known(Init(c), child), ArrivalsUpTo(c, states, picks, i - 1, child), Known(states[i - 1], child),
                    Arrivals(c, states[i - 1], picks[i - 1], child), Known(states[i], child));
    }
  }

  /** t is what the expansion of n ends in: n itself, or the near side of a bridge that leads nowhere known. */
  ghost predicate Ends(c: Config, n: Node, m: Meta, t: Terminal) {
    match PlanOf(c, n, m)
    case Fails => false
    case Stop(reason) => t == Terminal(n, reason)
    case HighDegree(_) => t == Terminal(n, HighDegreeService)
    case FanOut(legs, _) => exists leg :: leg in legs && Unresolved(c, n, leg, t)
  }

  ghost predicate Unresolved(c: Config, n: Node, leg: Transfer, t: Terminal) {
    c.resolveBridge(Node(n.chain, leg.to), leg).None? && t == Terminal(Node(n.chain, leg.to), BridgeUnresolved)
  }

  lemma LegEnds(c: Config, s: State, n: Node, m: Meta, leg: Transfer, t: Terminal)
    ensures t in CrossBridge(c, s, n, m, leg).terminals <==> (t in s.terminals || Unresolved(c, n, leg, t))
  {
    hide BridgeShare, WithRows;
  }

  lemma {:induction false} LegsEnd(c: Config, s: State, n: Node, m: Meta, legs: seq<Transfer>, t: Terminal)
    ensures t in CrossBridges(c, s, n, m, legs).terminals <==>
      (t in s.terminals || exists leg :: leg in legs && Unresolved(c, n, leg, t))
  {
    hide CrossBridge, Unresolved;
    if legs != [] {
      var k := |legs| - 1;
      LegsEnd(c, s, n, m, legs[..k], t);
      LegEnds(c, CrossBridges(c, s, n, m, legs[..k]), n, m, legs[k], t);
      assert forall leg :: leg in legs <==> leg in legs[..k] || leg == legs[k];
    }
  }

  lemma {:induction false} TopEndsNothing(s: State, n: Node, m: Meta, shares: map<EdgeKey, real>, top: seq<Transfer>)
    ensures PushTop(s, n, m, shares, top).terminals == s.terminals
  {
    if top != [] {
      TopEndsNothing(s, n, m, shares, top[..|top| - 1]);
    }
  }

  lemma ExpandEnds(c: Config, s: State, n: Node, t: Terminal)
    requires n in s.nodes
    ensures t in Expand(c, s, n).terminals <==> (t in s.terminals || Ends(c, n, s.nodes[n], t))
  {
    hide PlanOf, CrossBridges, PushTop, Shares, WithRows, Unresolved;
    var m, s1 := s.nodes[n], Mark(s, n);
    match PlanOf(c, n, m)
    case FanOut(legs, top) =>
      var crossed := CrossBridges(c, s1, n, m, legs);
      LegsEnd(c, s1, n, m, legs, t);
      TopEndsNothing(crossed.(rows := WithRows(crossed.rows, n, top)), n, m, Shares(c.job, m.taint, top), top);
    case _ =>
  }

  /** The terminals of a run are exactly those its expansions end in. */
  lemma {:induction false} TerminalsIff(c: Config, states: seq<State>, picks: seq<Node>, i: nat, t: Terminal)
    requires IsRun(c, states, picks) && i <= |picks|
    ensures t in states[i].terminals <==>
      exists j :: 0 <= j < i && picks[j] in states[j].nodes && Ends(c, picks[j], states[j].nodes[picks[j]], t)
  {
    hide Expand, Ends;
    if i > 0 {
      assert Step(c, states[i - 1], picks[i - 1], states[i]);
      TerminalsIff(c, states, picks, i - 1, t);
      ExpandEnds(c, states[i - 1], picks[i - 1], t);
    }
  }

  /** One row per transfer, in order, numbered on. */
  lemma {:induction false} RowsListed(rows: seq<Row>, from: Node, edges: seq<Transfer>)
    ensures var all := WithRows(rows, from, edges);
      && |all| == |rows| + |edges| && rows <= all
      && forall k :: 0 <= k < |edges| ==> all[|rows| + k] == Row(|rows| + k + 1, from, edges[k])
  {
    if edges != [] {
      RowsListed(rows, from, edges[..|edges| - 1]);
    }
  }

  lemma ExpandWrites(c: Config, s: State, n: Node, from: Node, e: Transfer)
    requires n in s.nodes
    ensures Written(Expand(c, s, n).rows, from, e) <==>
      (Written(s.rows, from, e) || (from == n && e in PlanRows(PlanOf(c, n, s.nodes[n]))))
  {
    hide PlanOf, Expand, WithRows;
    ExpandRows(c, s, n);
    var edges := PlanRows(PlanOf(c, n, s.nodes[n]));
    var all := Expand(c, s, n).rows;
    RowsListed(s.rows, n, edges);
    if r :| r in all && r.from == from && r.edge == e {
      var k :| 0 <= k < |all| && all[k] == r;
      if k < |s.rows| {
        assert s.rows[k] in s.rows;
      } else {
        assert all[|s.rows| + (k - |s.rows|)].edge == edges[k - |s.rows|];
      }
    }
    if r :| r in s.rows && r.from == from && r.edge == e {
      assert r in all;
    }
    if from == n && e in edges {
      var k :| 0 <= k < |edges| && edges[k] == e;
      assert all[|s.rows| + k] in all;
    }
  }

  /** A transfer is written for an address exactly when that address was expanded and followed or showed it. */
  lemma {:induction false} RowsIff(c: Config, states: seq<State>, picks: seq<Node>, i: nat, from: Node, e: Transfer)
    requires IsRun(c, states, picks) && i <= |picks|
    ensures Written(states[i].rows, from, e) <==>
      exists j :: 0 <= j < i && picks[j] == from && from in states[j].nodes && e in PlanRows(PlanOf(c, from, states[j].nodes[from]))
  {
    hide Expand, PlanOf, Written, PlanRows;
    if i == 0 {
      NothingWritten(c, from, e);
    } else {
      assert Step(c, states[i - 1], picks[i - 1], states[i]);
      RowsIff(c, states, picks, i - 1, from, e);
      ExpandWrites(c, states[i - 1], picks[i - 1], from, e);
    }
  }

  lemma NothingWritten(c: Config, from: Node, e: Transfer)
    ensures !Written(Init(c).rows, from, e)
  {
  }
}
