// apps/api/src/mule/graphDistance.ts: breadth-first depths over directed hop edges.
module GraphDistance {
  import opened Wrappers

  datatype Edge = Edge(fromAddr: string, toAddr: string)

  ghost predicate Joins(edges: seq<Edge>, x: string, y: string) {
    Edge(x, y) in edges
  }

  ghost predicate Path(edges: seq<Edge>, p: seq<string>) {
    |p| > 0 && forall i :: 0 < i < |p| ==> Joins(edges, p[i - 1], p[i])
  }

  /** Some path of n edges leads from source to t. */
  ghost predicate Reaches(edges: seq<Edge>, source: string, t: string, n: nat) {
    exists p :: Path(edges, p) && |p| == n + 1 && p[0] == source && p[n] == t
  }

  /** depth holds exactly the addresses reachable from source, each with its shortest distance. */
  ghost predicate Depths(edges: seq<Edge>, source: string, depth: map<string, nat>) {
    && (forall t :: t in depth ==> Reaches(edges, source, t, depth[t]))
    && (forall t, n: nat :: Reaches(edges, source, t, n) ==> t in depth && depth[t] <= n)
  }

  /** The targets of the edges out of x, in edge order. */
  function Targets(edges: seq<Edge>, x: string): (r: seq<string>)
    ensures forall y :: y in r <==> Edge(x, y) in edges
  {
    if edges == [] then []
    else
      var k := |edges| - 1;
      assert edges == edges[..k] + [edges[k]];
      var rest := Targets(edges[..k], x);
      if edges[k].fromAddr == x then rest + [edges[k].toAddr] else rest
  }

  method Adjacency(edges: seq<Edge>) returns (adj: map<string, seq<string>>)
    ensures forall x :: (if x in adj then adj[x] else []) == Targets(edges, x)
  {
    adj := map[];
    for i := 0 to |edges|
      invariant forall x :: (if x in adj then adj[x] else []) == Targets(edges[..i], x)
    {
      var e := edges[i];
      assert edges[..i + 1][..i] == edges[..i];
      var old' := if e.fromAddr in adj then adj[e.fromAddr] else [];
      adj := adj[e.fromAddr := old' + [e.toAddr]];
    }
    assert edges[..|edges|] == edges;
  }

  lemma ReachesOn(edges: seq<Edge>, source: string, x: string, y: string, n: nat)
    requires Reaches(edges, source, x, n) && Joins(edges, x, y)
    ensures Reaches(edges, source, y, n + 1)
  {
    var p :| Path(edges, p) && |p| == n + 1 && p[0] == source && p[n] == x;
    assert Path(edges, p + [y]) && (p + [y])[n + 1] == y;
  }

  // ---- the search ----

  /** Every edge out of x ends at an address at most one deeper. */
  ghost predicate Settled(edges: seq<Edge>, depth: map<string, nat>, x: string)
    requires x in depth
  {
    forall y :: Joins(edges, x, y) ==> y in depth && depth[y] <= depth[x] + 1
  }

  /** queue lists depths in order, none more than one apart, and nothing is deeper than its head allows. */
  ghost predicate QueueOrdered(depth: map<string, nat>, queue: seq<string>) {
    && (forall i :: 0 <= i < |queue| ==> queue[i] in depth)
    && (forall i, j :: 0 <= i < j < |queue| ==> depth[queue[i]] <= depth[queue[j]])
    && (forall x, i :: x in depth && 0 <= i < |queue| ==> depth[x] <= depth[queue[i]] + 1)
  }

  ghost predicate SearchInv(edges: seq<Edge>, source: string, depth: map<string, nat>, queue: seq<string>) {
    && source in depth && depth[source] == 0
    && (forall t :: t in depth ==> Reaches(edges, source, t, depth[t]))
    && QueueOrdered(depth, queue)
    && (forall x :: x in depth && x !in queue ==> Settled(edges, depth, x))
  }

  ghost function Addresses(edges: seq<Edge>, source: string): set<string> {
    {source} + set e | e in edges :: e.toAddr
  }

  method BfsDepths(edges: seq<Edge>, source: string) returns (depth: map<string, nat>)
    ensures Depths(edges, source, depth)
  {
    hide Reaches, SearchInv;
    var adj := Adjacency(edges);
    depth := map[source := 0];
    var queue := [source];
    SearchStarts(edges, source);
    while |queue| > 0
      invariant SearchInv(edges, source, depth, queue)
      invariant depth.Keys <= Addresses(edges, source)
      decreases |Addresses(edges, source) - depth.Keys|, |queue|
    {
      ghost var known := depth.Keys;
      depth, queue := Expand(edges, source, adj, depth, queue);
      if known != depth.Keys {
        Shrinks(Addresses(edges, source), known, depth.Keys);
      }
    }
    SearchDone(edges, source, depth);
  }

  /** One round of the loop: the head leaves the queue and its unseen successors join it. */
  method Expand(edges: seq<Edge>, source: string, adj: map<string, seq<string>>, depth0: map<string, nat>, queue0: seq<string>)
    returns (depth: map<string, nat>, queue: seq<string>)
    requires forall x :: (if x in adj then adj[x] else []) == Targets(edges, x)
    requires |queue0| > 0 && SearchInv(edges, source, depth0, queue0) && depth0.Keys <= Addresses(edges, source)
    ensures SearchInv(edges, source, depth, queue) && depth0.Keys <= depth.Keys <= Addresses(edges, source)
    ensures depth.Keys == depth0.Keys ==> |queue| < |queue0|
  {
    hide Reaches, Settled, RoundInv, Joins, Addresses;
    depth, queue := depth0, queue0[1..];
    HeadKnown(edges, source, depth0, queue0);
    var cur := queue0[0];
    var d := depth[cur];
    var nexts := if cur in adj then adj[cur] else [];
    HeadLevel(edges, source, depth, queue0);
    for i := 0 to |nexts|
      invariant RoundInv(edges, source, depth, queue, d, cur)
      invariant forall k :: 0 <= k < i ==> nexts[k] in depth && depth[nexts[k]] <= d + 1
      invariant depth0.Keys <= depth.Keys <= Addresses(edges, source)
      invariant depth0.Keys == depth.Keys ==> |queue| < |queue0|
    {
      var next := nexts[i];
      assert next in nexts;
      JoinsTarget(edges, cur, next);
      NotTooDeep(edges, source, depth, queue, d, cur);
      if next in depth {
        continue;
      }
      AddLevel(edges, source, depth, queue, d, next, cur);
      depth := depth[next := d + 1];
      queue := queue + [next];
      IsAddress(edges, source, cur, next);
    }
    RoundEnds(edges, source, depth, queue, d, cur, nexts);
  }

  lemma HeadKnown(edges: seq<Edge>, source: string, depth: map<string, nat>, queue: seq<string>)
    requires SearchInv(edges, source, depth, queue) && |queue| > 0
    ensures queue[0] in depth
  {
    hide Reaches, Settled;
  }

  lemma JoinsTarget(edges: seq<Edge>, x: string, y: string)
    requires y in Targets(edges, x)
    ensures Joins(edges, x, y)
  {
  }

  lemma NotTooDeep(edges: seq<Edge>, source: string, depth: map<string, nat>, queue: seq<string>, d: nat, cur: string)
    requires RoundInv(edges, source, depth, queue, d, cur)
    ensures forall x :: x in depth ==> depth[x] <= d + 1
  {
    hide Reaches, Settled;
  }

  lemma IsAddress(edges: seq<Edge>, source: string, x: string, y: string)
    requires Joins(edges, x, y)
    ensures y in Addresses(edges, source)
  {
  }

  lemma SearchStarts(edges: seq<Edge>, source: string)
    ensures SearchInv(edges, source, map[source := 0], [source])
  {
    StartReaches(edges, source);
  }

  ghost predicate RoundInv(edges: seq<Edge>, source: string, depth: map<string, nat>, queue: seq<string>, d: nat, cur: string) {
    && cur in depth && depth[cur] == d && source in depth && depth[source] == 0
    && (forall t :: t in depth ==> Reaches(edges, source, t, depth[t]))
    && LevelOrdered(depth, queue, d)
    && forall x :: x in depth && x !in queue && x != cur ==> Settled(edges, depth, x)
  }

  lemma HeadLevel(edges: seq<Edge>, source: string, depth: map<string, nat>, queue: seq<string>)
    requires |queue| > 0 && SearchInv(edges, source, depth, queue)
    ensures RoundInv(edges, source, depth, queue[1..], depth[queue[0]], queue[0])
  {
    hide Reaches, Settled, QueueOrdered;
    assert queue == [queue[0]] + queue[1..];
    HeadIsLevel(depth, queue);
  }

  lemma HeadIsLevel(depth: map<string, nat>, queue: seq<string>)
    requires |queue| > 0 && QueueOrdered(depth, queue)
    ensures queue[0] in depth && LevelOrdered(depth, queue[1..], depth[queue[0]])
  {
  }

  lemma RoundEnds(edges: seq<Edge>, source: string, depth: map<string, nat>, queue: seq<string>, d: nat, cur: string, nexts: seq<string>)
    requires RoundInv(edges, source, depth, queue, d, cur) && nexts == Targets(edges, cur)
    requires forall k :: 0 <= k < |nexts| ==> nexts[k] in depth && depth[nexts[k]] <= d + 1
    ensures SearchInv(edges, source, depth, queue)
  {
    hide Reaches;
    forall y | Joins(edges, cur, y)
      ensures y in depth && depth[y] <= d + 1
    {
      assert y in nexts;
    }
    assert Settled(edges, depth, cur);
  }

  /** While the level-d address is expanded: queued depths are d or d + 1, in order; nothing is deeper than d + 1. */
  ghost predicate LevelOrdered(depth: map<string, nat>, queue: seq<string>, d: nat) {
    && (forall i :: 0 <= i < |queue| ==> queue[i] in depth && d <= depth[queue[i]])
    && (forall i, j :: 0 <= i < j < |queue| ==> depth[queue[i]] <= depth[queue[j]])
    && (forall x :: x in depth ==> depth[x] <= d + 1)
  }

  lemma AddLevel(edges: seq<Edge>, source: string, depth: map<string, nat>, queue: seq<string>, d: nat, next: string, cur: string)
    requires RoundInv(edges, source, depth, queue, d, cur) && next !in depth && Joins(edges, cur, next)
    ensures RoundInv(edges, source, depth[next := d + 1], queue + [next], d, cur)
  {
    hide Reaches;
    ReachesOn(edges, source, cur, next, d);
  }

  lemma Shrinks(all: set<string>, before: set<string>, after: set<string>)
    requires before < after && after <= all
    ensures |all - after| < |all - before|
  {
    var x :| x in after && x !in before;
    assert all - after <= all - before - {x};
    Smaller(all - after, all - before - {x});
  }

  lemma {:induction false} Smaller(a: set<string>, b: set<string>)
    requires a <= b
    ensures |a| <= |b|
    decreases b
  {
    if a != {} {
      var x :| x in a;
      Smaller(a - {x}, b - {x});
    }
  }

  lemma StartReaches(edges: seq<Edge>, source: string)
    ensures Reaches(edges, source, source, 0)
  {
    assert Path(edges, [source]) && [source][0] == source;
  }

  /** An empty queue: every known address is settled, so no path gets ahead of its depth. */
  lemma SearchDone(edges: seq<Edge>, source: string, depth: map<string, nat>)
    requires SearchInv(edges, source, depth, [])
    ensures Depths(edges, source, depth)
  {
    forall t, n: nat | Reaches(edges, source, t, n)
      ensures t in depth && depth[t] <= n
    {
      var p :| Path(edges, p) && |p| == n + 1 && p[0] == source && p[n] == t;
      PathDepth(edges, source, depth, p);
    }
  }

  lemma {:induction false} PathDepth(edges: seq<Edge>, source: string, depth: map<string, nat>, p: seq<string>)
    requires source in depth && depth[source] == 0 && forall x :: x in depth ==> Settled(edges, depth, x)
    requires Path(edges, p) && p[0] == source
    ensures p[|p| - 1] in depth && depth[p[|p| - 1]] <= |p| - 1
  {
    var k := |p| - 1;
    if k > 0 {
      PathDepth(edges, source, depth, p[..k]);
      assert Joins(edges, p[k - 1], p[k]);
    }
  }

  /** The fewest hops to any target; None exactly when none is reachable. */
  method HopsToNearest(edges: seq<Edge>, addr: string, targets: set<string>) returns (best: Option<nat>)
    ensures best.Some? ==> exists t :: t in targets && Reaches(edges, addr, t, best.value)
    ensures best.Some? ==> forall t, n: nat :: t in targets && Reaches(edges, addr, t, n) ==> best.value <= n
    ensures best.None? <==> forall t, n: nat :: t in targets ==> !Reaches(edges, addr, t, n)
  {
    hide Reaches;
    if addr in targets {
      StartReaches(edges, addr);
      return Some(0);
    }
    var depths := BfsDepths(edges, addr);
    best := None;
    var rest := targets;
    while rest != {}
      invariant rest <= targets
      invariant best.Some? ==> exists t :: t in targets && t in depths && depths[t] == best.value
      invariant forall t :: t in targets && t !in rest && t in depths ==> best.Some? && best.value <= depths[t]
      decreases rest
    {
      var t :| t in rest;
      rest := rest - {t};
      if t in depths && (best.None? || depths[t] < best.value) {
        best := Some(depths[t]);
      }
    }
  }
}
