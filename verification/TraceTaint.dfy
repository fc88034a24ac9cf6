// Conservation: what the frontier holds plus what expanded nodes kept is what the trace started with.
module TraceTaint {
  import opened Wrappers
  import opened Taints
  import opened TaintAllocation
  import opened Sequences
  import opened Transfers
  import opened TraceModel
  import opened TraceRows
  import TracePaths

  function Amount(t: Taint): real {
    if t.Inf? then 0.0 else t.usd
  }

  ghost function SumOver(nodes: map<Node, Meta>, among: set<Node>): real
    requires among <= nodes.Keys
  {
    if among == {} then 0.0
    else
      var n :| n in among;
      Amount(nodes[n].taint) + SumOver(nodes, among - {n})
  }

  lemma {:induction false} SumWithout(nodes: map<Node, Meta>, among: set<Node>, x: Node)
    requires among <= nodes.Keys && x in among
    ensures SumOver(nodes, among) == Amount(nodes[x].taint) + SumOver(nodes, among - {x})
    decreases |among|
  {
    var n :| n in among && SumOver(nodes, among) == Amount(nodes[n].taint) + SumOver(nodes, among - {n});
    if n != x {
      SumWithout(nodes, among - {n}, x);
      SumWithout(nodes, among - {x}, n);
      assert among - {n} - {x} == among - {x} - {n};
    }
  }

  lemma {:induction false} SumAgrees(a: map<Node, Meta>, b: map<Node, Meta>, among: set<Node>)
    requires among <= a.Keys && among <= b.Keys
    requires forall n :: n in among ==> a[n].taint == b[n].taint
    ensures SumOver(a, among) == SumOver(b, among)
    decreases |among|
  {
    if among != {} {
      var n :| n in among;
      SumWithout(a, among, n);
      SumWithout(b, among, n);
      SumAgrees(a, b, among - {n});
    }
  }

  lemma {:induction false} SumBounds(nodes: map<Node, Meta>, among: set<Node>, x: Node)
    requires among <= nodes.Keys && forall n :: n in among ==> Amount(nodes[n].taint) >= 0.0
    ensures SumOver(nodes, among) >= 0.0
    ensures x in among ==> Amount(nodes[x].taint) <= SumOver(nodes, among)
    decreases |among|
  {
    if among != {} {
      var n := if x in among then x else var n :| n in among; n;
      SumWithout(nodes, among, n);
      SumBounds(nodes, among - {n}, n);
    }
  }

  /** The taint still waiting to be followed. */
  ghost function FrontierTaint(s: State): real {
    SumOver(s.nodes, Frontier(s))
  }

  /** All taints on the frontier are finite and none is negative. Only a seed without a reported amount ever is not. */
  ghost predicate Funded(s: State) {
    forall n :: n in Frontier(s) ==> s.nodes[n].taint.Fin? && s.nodes[n].taint.usd >= 0.0
  }

  lemma PushGain(s: State, child: Node, share: real, hop: nat, ts: int)
    requires Funded(s) && share >= 0.0
    ensures Funded(PushChild(s, child, share, hop, ts))
    ensures FrontierTaint(PushChild(s, child, share, hop, ts))
         == FrontierTaint(s) + if child in s.expanded then 0.0 else share
  {
    if child !in s.expanded {
      var s' := PushChild(s, child, share, hop, ts);
      var others := Frontier(s) - {child};
      assert Frontier(s') - {child} == others;
      SumWithout(s'.nodes, Frontier(s'), child);
      SumAgrees(s.nodes, s'.nodes, others);
      if child in s.nodes {
        SumWithout(s.nodes, Frontier(s), child);
      } else {
        assert others == Frontier(s);
      }
    }
  }

  // ---- what one expansion hands on ----

  /** The part of an edge's share that reaches the frontier, and the part an expanded target ignores. */
  function Onward(expanded: set<Node>, n: Node, shares: map<EdgeKey, real>, e: Transfer): real {
    if ShareOf(shares, e) > 0.0 && Node(n.chain, e.to) !in expanded then ShareOf(shares, e) else 0.0
  }

  function Ignored(expanded: set<Node>, n: Node, shares: map<EdgeKey, real>, e: Transfer): real {
    if Node(n.chain, e.to) in expanded then ShareOf(shares, e) else 0.0
  }

  /** The share a resolved bridge crossing adds to the frontier. */
  function Crossing(c: Config, expanded: set<Node>, n: Node, m: Meta, leg: Transfer): real {
    var resolved := c.resolveBridge(Node(n.chain, leg.to), leg);
    var share := BridgeShare(c.job, m.taint, leg);
    if resolved.Some? && share > 0.0 && resolved.value !in expanded then share else 0.0
  }

  lemma {:induction false} PushTopGain(s: State, n: Node, m: Meta, shares: map<EdgeKey, real>, top: seq<Transfer>)
    requires Funded(s)
    ensures Funded(PushTop(s, n, m, shares, top))
    ensures FrontierTaint(PushTop(s, n, m, shares, top)) == FrontierTaint(s) + SumBy(top, e => Onward(s.expanded, n, shares, e))
  {
    if top != [] {
      var init, e := top[..|top| - 1], top[|top| - 1];
      PushTopGain(s, n, m, shares, init);
      PushTopFrame(s, n, m, shares, init);
      if ShareOf(shares, e) > 0.0 {
        PushGain(PushTop(s, n, m, shares, init), Node(n.chain, e.to), ShareOf(shares, e), m.hop + 1, e.ts);
      }
    }
  }

  lemma {:induction false} CrossBridgesGain(c: Config, s: State, n: Node, m: Meta, legs: seq<Transfer>)
    requires Funded(s)
    ensures Funded(CrossBridges(c, s, n, m, legs))
    ensures FrontierTaint(CrossBridges(c, s, n, m, legs)) == FrontierTaint(s) + SumBy(legs, e => Crossing(c, s.expanded, n, m, e))
  {
    if legs != [] {
      var init, e := legs[..|legs| - 1], legs[|legs| - 1];
      var before := CrossBridges(c, s, n, m, init);
      CrossBridgesGain(c, s, n, m, init);
      CrossBridgesRows(c, s, n, m, init);
      CrossBridgeGain(c, before, n, m, e);
    }
  }

  lemma CrossBridgeGain(c: Config, s: State, n: Node, m: Meta, leg: Transfer)
    requires Funded(s)
    ensures Funded(CrossBridge(c, s, n, m, leg))
    ensures FrontierTaint(CrossBridge(c, s, n, m, leg)) == FrontierTaint(s) + Crossing(c, s.expanded, n, m, leg)
  {
    var resolved := c.resolveBridge(Node(n.chain, leg.to), leg);
    var s1 := s.(rows := WithRows(s.rows, n, [leg]));
    assert Frontier(s1) == Frontier(s);
    var share := BridgeShare(c.job, m.taint, leg);
    if resolved.Some? && share > 0.0 {
      PushGain(s1, resolved.value, share, m.hop + 1, leg.ts);
    }
  }

  // ---- the shares of the selected edges add up ----

  lemma {:induction false} SumByAgrees<T(!new)>(s: seq<T>, f: T -> real, g: T -> real)
    requires forall x :: x in s ==> f(x) == g(x)
    ensures SumBy(s, f) == SumBy(s, g)
  {
    if s != [] {
      SumByAgrees(s[..|s| - 1], f, g);
      assert s[|s| - 1] in s;
    }
  }

  lemma {:induction false} SumByAdds<T>(s: seq<T>, f: T -> real, g: T -> real, h: T -> real)
    requires forall x :: x in s ==> f(x) + g(x) == h(x)
    ensures SumBy(s, f) + SumBy(s, g) == SumBy(s, h)
  {
    if s != [] {
      SumByAdds(s[..|s| - 1], f, g, h);
      assert s[|s| - 1] in s;
    }
  }

  lemma {:induction false} SumByNonNegative<T>(s: seq<T>, f: T -> real)
    requires forall x :: x in s ==> f(x) >= 0.0
    ensures SumBy(s, f) >= 0.0
  {
    if s != [] {
      SumByNonNegative(s[..|s| - 1], f);
      assert s[|s| - 1] in s;
    }
  }

  function PricedUsd(t: Transfer): real {
    OrZero(t.usd)
  }

  lemma {:induction false} TotalIsSum(edges: seq<Transfer>)
    ensures Total(Values(edges)) == SumBy(edges, PricedUsd)
  {
    if edges != [] {
      var k := |edges| - 1;
      TotalIsSum(edges[..k]);
      assert Values(edges)[..k] == Values(edges[..k]);
    }
  }

  /** With distinct keys no share is overwritten: looking every edge up again gives back all shares. */
  lemma {:induction false} MapSum(order: seq<Transfer>, shares: seq<real>)
    requires |order| == |shares| && UniqueKeys(order)
    ensures SumBy(order, e => ShareOf(ShareMap(order, shares), e)) == Sum(shares)
  {
    if order != [] {
      var k := |order| - 1;
      var init, rest := order[..k], shares[..k];
      assert order == init + [order[k]];
      BagWithin(BagBy(init, EdgeKeyOf), BagBy(order, EdgeKeyOf));
      MapSum(init, rest);
      var m, m' := ShareMap(init, rest), ShareMap(order, shares);
      forall e | e in init
        ensures ShareOf(m, e) == ShareOf(m', e)
      {
        BagHas(init, EdgeKeyOf, EdgeKeyOf(e));
        assert BagBy(order, EdgeKeyOf)[EdgeKeyOf(order[k])] <= 1;
      }
      SumByAgrees(init, e => ShareOf(m, e), e => ShareOf(m', e));
    }
  }

  lemma {:induction false} MapShares(order: seq<Transfer>, shares: seq<real>, key: EdgeKey)
    requires |order| == |shares| && forall i :: 0 <= i < |shares| ==> shares[i] >= 0.0
    ensures key in ShareMap(order, shares) ==> ShareMap(order, shares)[key] >= 0.0
  {
    if order != [] {
      MapShares(order[..|order| - 1], shares[..|order| - 1], key);
    }
  }

  ghost predicate Priced(edges: seq<Transfer>) {
    forall e :: e in edges ==> PricedUsd(e) >= 0.0
  }

  lemma SharesNonNegative(job: Job, taint: Taint, top: seq<Transfer>)
    requires Balance(taint) && Priced(top)
    ensures forall e :: ShareOf(Shares(job, taint, top), e) >= 0.0
    ensures NonNegative(Values(InOrderOf(job, top)))
  {
    var order := InOrderOf(job, top);
    SortMultiset(top, ByTime);
    forall i | 0 <= i < |order|
      ensures OrZero(Values(order)[i]) >= 0.0
    {
      assert order[i] in multiset(order);
      assert order[i] in top;
    }
    var shares := Allocate(job.model, taint, Values(order));
    forall i | 0 <= i < |shares|
      ensures shares[i] >= 0.0
    {
      SharesBounded(job.model, taint, Values(order), i);
    }
    forall e
      ensures ShareOf(ShareMap(order, shares), e) >= 0.0
    {
      MapShares(order, shares, EdgeKeyOf(e));
    }
  }

  /** With distinct keys the looked-up shares are all that was allotted. */
  lemma SharesAddUp(job: Job, taint: Taint, top: seq<Transfer>)
    requires Balance(taint) && UniqueKeys(top) && Priced(top)
    ensures SumBy(top, e => ShareOf(Shares(job, taint, top), e)) == Allotted(taint, SumBy(top, PricedUsd))
    ensures forall e :: ShareOf(Shares(job, taint, top), e) >= 0.0
  {
    var order := InOrderOf(job, top);
    SharesNonNegative(job, taint, top);
    SortBag(top, ByTime, EdgeKeyOf);
    LookupSum(job, taint, top);
    MapSum(order, Allocate(job.model, taint, Values(order)));
  }

  /** Whatever the keys, the shares are looked up in the order they were allotted, and were allotted exactly. */
  lemma LookupSum(job: Job, taint: Taint, top: seq<Transfer>)
    requires Balance(taint) && Priced(top)
    ensures var order := InOrderOf(job, top);
      var given := Allocate(job.model, taint, Values(order));
      && SumBy(top, e => ShareOf(Shares(job, taint, top), e)) == SumBy(order, e => ShareOf(ShareMap(order, given), e))
      && Sum(given) == Allotted(taint, SumBy(top, PricedUsd))
  {
    var order := InOrderOf(job, top);
    var given := Allocate(job.model, taint, Values(order));
    var look := e => ShareOf(ShareMap(order, given), e);
    SharesNonNegative(job, taint, top);
    SortSum(top, ByTime, look);
    SortSum(top, ByTime, PricedUsd);
    AllotsExactly(job.model, taint, Values(order));
    TotalIsSum(order);
    SumByAgrees(top, look, e => ShareOf(Shares(job, taint, top), e));
    SumByAgrees(order, look, e => ShareOf(ShareMap(order, given), e));
  }

  /** The edges in the order in which taint is allotted. */
  ghost function InOrderOf(job: Job, top: seq<Transfer>): (r: seq<Transfer>)
    ensures |r| == |top|
  {
    SortMultiset(top, ByTime);
    assert |multiset(Sort(top, ByTime))| == |Sort(top, ByTime)| && |multiset(top)| == |top|;
    if job.model == FIFO then Sort(top, ByTime) else top
  }

  /** j is the last edge with the key of edge i. */
  ghost predicate IsLast(order: seq<Transfer>, i: nat, j: nat) {
    && i <= j < |order| && EdgeKeyOf(order[j]) == EdgeKeyOf(order[i])
    && forall k :: j < k < |order| ==> EdgeKeyOf(order[k]) != EdgeKeyOf(order[i])
  }

  ghost function LastOf(order: seq<Transfer>, i: nat): (j: nat)
    requires i < |order|
    ensures IsLast(order, i, j)
  {
    var k := |order| - 1;
    if EdgeKeyOf(order[k]) == EdgeKeyOf(order[i]) then k else LastOf(order[..k], i)
  }

  lemma {:induction false} LastShareWins(order: seq<Transfer>, given: seq<real>, i: nat)
    requires |order| == |given| && i < |order|
    ensures ShareOf(ShareMap(order, given), order[i]) == given[LastOf(order, i)]
  {
    var k := |order| - 1;
    if EdgeKeyOf(order[k]) != EdgeKeyOf(order[i]) {
      LastShareWins(order[..k], given[..k], i);
    }
  }

  /** What each edge is credited with: the share of the last edge with its key. */
  ghost function LookedUp(order: seq<Transfer>, given: seq<real>): (r: seq<real>)
    requires |order| == |given|
    ensures |r| == |order|
  {
    seq(|order|, i requires 0 <= i < |order| => given[LastOf(order, i)])
  }

  lemma {:induction false} SumOfEach(s: seq<Transfer>, f: Transfer -> real, r: seq<real>)
    requires |r| == |s| && forall i :: 0 <= i < |s| ==> r[i] == f(s[i])
    ensures SumBy(s, f) == Sum(r)
  {
    if s != [] {
      SumOfEach(s[..|s| - 1], f, r[..|s| - 1]);
    }
  }

  /**
    * For any selection, with keys repeated or not, under either model and from any balance: the looked-up shares add up to
    * one share per edge, that of the last edge with its key, and so to what was allotted exactly when those do.
    */
  lemma SharesLookedUp(job: Job, taint: Taint, top: seq<Transfer>)
    requires Balance(taint) && Priced(top)
    ensures var order := InOrderOf(job, top);
      var given := Allocate(job.model, taint, Values(order));
      var sum := SumBy(top, e => ShareOf(Shares(job, taint, top), e));
      && sum == Sum(LookedUp(order, given))
      && (sum == Allotted(taint, SumBy(top, PricedUsd)) <==> Sum(LookedUp(order, given)) == Sum(given))
  {
    var order := InOrderOf(job, top);
    var given := Allocate(job.model, taint, Values(order));
    var look := e => ShareOf(ShareMap(order, given), e);
    LookupSum(job, taint, top);
    forall i | 0 <= i < |order|
      ensures LookedUp(order, given)[i] == look(order[i])
    {
      LastShareWins(order, given, i);
    }
    SumOfEach(order, look, LookedUp(order, given));
    SumByAgrees(order, look, e => ShareOf(ShareMap(order, given), e));
  }

  lemma OrderOfTwo(job: Job, t: Transfer, u: Transfer)
    ensures InOrderOf(job, [t, u]) == if job.model == FIFO && u.ts < t.ts then [u, t] else [t, u]
  {
    assert [t, u][..1] == [t] && [t][..0] == [];
    assert Sort([t], ByTime) == [t];
    assert Insert([t], u, ByTime) == if ByTime(t, u) then [t] + [u] else Insert([], u, ByTime) + [t];
  }

  /** Of two edges with one key the one allotted last counts twice: the sum is right exactly when both got the same. */
  lemma ClashCountsTwice(job: Job, taint: Taint, t: Transfer, u: Transfer)
    requires EdgeKeyOf(t) == EdgeKeyOf(u) && Balance(taint) && PricedUsd(t) >= 0.0 && PricedUsd(u) >= 0.0
    ensures var given := Allocate(job.model, taint, Values(InOrderOf(job, [t, u])));
      var sum := SumBy([t, u], e => ShareOf(Shares(job, taint, [t, u]), e));
      && sum == 2.0 * given[1]
      && (sum == Allotted(taint, PricedUsd(t) + PricedUsd(u)) <==> given[0] == given[1])
  {
    var order := InOrderOf(job, [t, u]);
    OrderOfTwo(job, t, u);
    var given := Allocate(job.model, taint, Values(order));
    SharesLookedUp(job, taint, [t, u]);
    SumOfTwo(t, u, PricedUsd);
    assert LastOf(order, 0) == 1 && LastOf(order, 1) == 1;
    TwoShares(given);
    TwoShares(LookedUp(order, given));
  }

  lemma TwoShares(given: seq<real>)
    requires |given| == 2
    ensures Sum(given) == given[0] + given[1]
  {
    assert given[..1] == [given[0]] && [given[0]][..0] == [];
    assert Sum([given[0]]) == given[0];
  }

  /** Proportional shares of two priced edges are the same exactly when the edges are worth the same. */
  lemma HaircutClash(job: Job, taint: Taint, t: Transfer, u: Transfer)
    requires job.model == HAIRCUT && Less(Fin(0.0), taint) && PricedUsd(t) > 0.0 && PricedUsd(u) > 0.0
    ensures var given := Allocate(job.model, taint, Values(InOrderOf(job, [t, u])));
      given[0] == given[1] <==> t.usd == u.usd
  {
    var values := Values([t, u]);
    assert values == [t.usd, u.usd];
    assert values[..1] == [t.usd] && [t.usd][..0] == [];
    assert Total([t.usd]) == t.usd.value;
    assert Total(values) == t.usd.value + u.usd.value;
    var p := Proportion(taint, Total(values));
    PositiveProportion(taint, Total(values));
    SameProducts(t.usd.value, u.usd.value, p);
  }

  lemma PositiveProportion(taint: Taint, total: real)
    requires Less(Fin(0.0), taint) && total > 0.0
    ensures Proportion(taint, total) > 0.0
  {
    if taint.Fin? {
      assert taint.usd / total > 0.0;
    }
  }

  lemma SameProducts(a: real, b: real, p: real)
    requires p > 0.0
    ensures a * p == b * p <==> a == b
  {
    if a < b {
      assert (b - a) * p > 0.0;
    } else if b < a {
      assert (a - b) * p > 0.0;
    }
  }

  /** First come, first served: the same exactly when the balance just covers both, or is twice the smaller first one. */
  lemma FifoClash(balance: real, v: real, w: real)
    requires balance > 0.0 && v > 0.0 && w > 0.0
    ensures var given := Allocate(FIFO, Fin(balance), [Some(v), Some(w)]);
      given[0] == given[1] <==> if v == w then balance >= 2.0 * v else v < w && balance == 2.0 * v
  {
    var values := [Some(v), Some(w)];
    assert values[..1] == [Some(v)] && [Some(v)][..0] == [];
    assert Fifo(Fin(balance), [Some(v)]) == [Min(balance, v)];
    assert Remaining(Fin(balance), [Some(v)]) == Fin(balance - Min(balance, v));
  }

  lemma SumOfTwo<T>(x: T, y: T, f: T -> real)
    ensures SumBy([x, y], f) == f(x) + f(y)
  {
    assert [x, y][..1] == [x];
    SumOfOne(x, f);
  }

  // ---- the law ----

  /** What n does not hand on: the balance its priced outflows cannot carry, and the shares
      of edges back into addresses that are expanded already. A terminal keeps everything. */
  ghost function Kept(c: Config, s: State, n: Node): real
    requires n in s.nodes
  {
    var m := s.nodes[n];
    match PlanOf(c, n, m)
    case FanOut(_, top) => Residue(m.taint, top) + Returned(c, s.expanded + {n}, n, m, top)
    case _ => Amount(m.taint)
  }

  ghost function Residue(taint: Taint, top: seq<Transfer>): real {
    if taint.Inf? then 0.0 else taint.usd - Allotted(taint, SumBy(top, PricedUsd))
  }

  ghost function Returned(c: Config, expanded: set<Node>, n: Node, m: Meta, top: seq<Transfer>): real {
    SumBy(top, e => Ignored(expanded, n, Shares(c.job, m.taint, top), e))
  }

  /** Taint a resolved bridge crossing creates: each leg is allotted the node's whole balance again. */
  ghost function Minted(c: Config, s: State, n: Node): real
    requires n in s.nodes
  {
    match PlanOf(c, n, s.nodes[n])
    case FanOut(legs, _) => SumBy(legs, e => Crossing(c, s.expanded + {n}, n, s.nodes[n], e))
    case _ => 0.0
  }

  /** What a balance without bound brings into the trace: all that its selected transfers are worth. */
  ghost function Granted(c: Config, s: State, n: Node): real
    requires n in s.nodes
  {
    match PlanOf(c, n, s.nodes[n])
    case FanOut(_, top) => GrantOf(s.nodes[n].taint, top)
    case _ => 0.0
  }

  ghost function GrantOf(taint: Taint, top: seq<Transfer>): real {
    if taint.Inf? then SumBy(top, PricedUsd) else 0.0
  }

  /** What edges with one (txHash, idx) are credited with beyond their shares; it may be negative. */
  ghost function Doubled(c: Config, s: State, n: Node): real
    requires n in s.nodes
  {
    match PlanOf(c, n, s.nodes[n])
    case FanOut(_, top) => Overcount(c.job, s.nodes[n].taint, top)
    case _ => 0.0
  }

  ghost function Overcount(job: Job, taint: Taint, top: seq<Transfer>): real {
    SumBy(top, e => ShareOf(Shares(job, taint, top), e)) - Allotted(taint, SumBy(top, PricedUsd))
  }

  lemma FanOutBalance(c: Config, s: State, n: Node, m: Meta, legs: seq<Transfer>, top: seq<Transfer>)
    requires Funded(s) && Balance(m.taint) && Priced(top)
    ensures Funded(FanOutStep(c, s, n, m, legs, top))
    ensures FrontierTaint(FanOutStep(c, s, n, m, legs, top)) + Residue(m.taint, top) + Returned(c, s.expanded, n, m, top)
         == FrontierTaint(s) + Amount(m.taint) + GrantOf(m.taint, top) + Overcount(c.job, m.taint, top)
          + SumBy(legs, e => Crossing(c, s.expanded, n, m, e))
    ensures Residue(m.taint, top) >= 0.0 && Returned(c, s.expanded, n, m, top) >= 0.0
  {
    var shares := Shares(c.job, m.taint, top);
    CrossBridgesGain(c, s, n, m, legs);
    CrossBridgesRows(c, s, n, m, legs);
    var s2 := CrossBridges(c, s, n, m, legs);
    var s3 := s2.(rows := WithRows(s2.rows, n, top));
    assert Frontier(s3) == Frontier(s2);
    PushTopGain(s3, n, m, shares, top);
    SharesNonNegative(c.job, m.taint, top);
    SplitShares(s.expanded, n, shares, top);
  }

  lemma SplitShares(expanded: set<Node>, n: Node, shares: map<EdgeKey, real>, top: seq<Transfer>)
    requires forall e :: ShareOf(shares, e) >= 0.0
    ensures SumBy(top, e => Onward(expanded, n, shares, e)) + SumBy(top, e => Ignored(expanded, n, shares, e))
         == SumBy(top, e => ShareOf(shares, e))
    ensures SumBy(top, e => Ignored(expanded, n, shares, e)) >= 0.0
  {
    SumByAdds(top, e => Onward(expanded, n, shares, e), e => Ignored(expanded, n, shares, e), e => ShareOf(shares, e));
    SumByNonNegative(top, e => Ignored(expanded, n, shares, e));
  }

  /** Only a positive value can be allotted; edges below the minimum were dropped before. */
  lemma TopIsPriced(c: Config, n: Node, m: Meta)
    requires c.job.minValueUsd >= 0.0
    ensures PlanOf(c, n, m).FanOut? ==> Priced(PlanOf(c, n, m).top)
  {
    TracePaths.PlanFollows(c, n, m);
    hide PlanOf;
  }

  /** And where (txHash, idx) is unique, no edge is credited with another's share. */
  lemma NothingDoubled(c: Config, s: State, n: Node)
    requires DistinctOutflows(c) && c.job.minValueUsd >= 0.0 && n in s.nodes && Balance(s.nodes[n].taint)
    ensures Doubled(c, s, n) == 0.0
  {
    var m := s.nodes[n];
    PlanKeysUnique(c, n, m);
    TopIsPriced(c, n, m);
    hide PlanOf;
    var plan := PlanOf(c, n, m);
    if plan.FanOut? {
      BagAppend(plan.bridgeLegs, plan.top, EdgeKeyOf);
      BagWithin(BagBy(plan.top, EdgeKeyOf), BagBy(plan.bridgeLegs + plan.top, EdgeKeyOf));
      SharesAddUp(c.job, m.taint, plan.top);
    }
  }

  lemma MarkTakesTaint(s: State, n: Node)
    requires n in Frontier(s)
    ensures FrontierTaint(Mark(s, n)) == FrontierTaint(s) - Amount(s.nodes[n].taint)
    ensures Funded(s) ==> Funded(Mark(s, n))
  {
    SumWithout(s.nodes, Frontier(s), n);
    assert Frontier(Mark(s, n)) == Frontier(s) - {n};
  }

  /** One expansion, of an address with a balance or of an unbounded seed, whatever the keys of its transfers. */
  lemma ExpandBalance(c: Config, s: State, n: Node)
    requires c.job.minValueUsd >= 0.0 && n in Frontier(s) && Balance(s.nodes[n].taint) && Funded(Mark(s, n))
    ensures Funded(Expand(c, s, n))
    ensures FrontierTaint(Expand(c, s, n)) + Kept(c, s, n) == FrontierTaint(s) + Granted(c, s, n) + Minted(c, s, n) + Doubled(c, s, n)
    ensures Kept(c, s, n) >= 0.0 && Minted(c, s, n) >= 0.0
  {
    hide PlanOf, FanOutStep, Overcount, Residue, Returned;
    var m, s1 := s.nodes[n], Mark(s, n);
    MarkTakesTaint(s, n);
    TopIsPriced(c, n, m);
    match PlanOf(c, n, m)
    case Fails =>
    case Stop(reason) =>
      assert Frontier(Expand(c, s, n)) == Frontier(s1);
    case HighDegree(shown) =>
      assert Frontier(Expand(c, s, n)) == Frontier(s1);
    case FanOut(legs, top) =>
      FanOutBalance(c, s1, n, m, legs, top);
      SumByNonNegative(legs, e => Crossing(c, s1.expanded, n, m, e));
  }

  ghost function KeptAt(c: Config, states: seq<State>, picks: seq<Node>, i: nat): real
    requires IsRun(c, states, picks) && i < |picks|
  {
    assert Step(c, states[i], picks[i], states[i + 1]);
    Kept(c, states[i], picks[i])
  }

  ghost function MintedAt(c: Config, states: seq<State>, picks: seq<Node>, i: nat): real
    requires IsRun(c, states, picks) && i < |picks|
  {
    assert Step(c, states[i], picks[i], states[i + 1]);
    Minted(c, states[i], picks[i])
  }

  ghost function KeptUpTo(c: Config, states: seq<State>, picks: seq<Node>, i: nat): real
    requires IsRun(c, states, picks) && i <= |picks|
  {
    if i == 0 then 0.0 else KeptUpTo(c, states, picks, i - 1) + KeptAt(c, states, picks, i - 1)
  }

  ghost function MintedUpTo(c: Config, states: seq<State>, picks: seq<Node>, i: nat): real
    requires IsRun(c, states, picks) && i <= |picks|
  {
    if i == 0 then 0.0 else MintedUpTo(c, states, picks, i - 1) + MintedAt(c, states, picks, i - 1)
  }

  ghost function DoubledUpTo(c: Config, states: seq<State>, picks: seq<Node>, i: nat): real
    requires IsRun(c, states, picks) && i <= |picks|
  {
    if i == 0 then 0.0
    else
      assert Step(c, states[i - 1], picks[i - 1], states[i]);
      DoubledUpTo(c, states, picks, i - 1) + Doubled(c, states[i - 1], picks[i - 1])
  }

  /** No amount and no minimum is negative. A job without a reported amount has an unbounded seed. */
  ghost predicate Accountable(c: Config) {
    c.job.minValueUsd >= 0.0 && (c.job.reportedAmount.Some? ==> c.job.reportedAmount.value >= 0.0)
  }

  /** What the trace has to account for after i steps: the reported amount, or without one, all that the transfers selected
      at the seed are worth, once it is expanded. */
  ghost function Brought(c: Config, i: nat): real {
    if c.job.reportedAmount.Some? then c.job.reportedAmount.value
    else if i == 0 then 0.0
    else Granted(c, Init(c), c.job.seed)
  }

  /** The seed's balance is known, or its expansion has begun. */
  predicate Settled(c: Config, i: nat) {
    c.job.reportedAmount.Some? || i > 0
  }

  lemma StartBalance(c: Config)
    requires Accountable(c)
    ensures Frontier(Init(c)) == {c.job.seed} && FrontierTaint(Init(c)) == Brought(c, 0)
    ensures Balance(Init(c).nodes[c.job.seed].taint) && Funded(Mark(Init(c), c.job.seed))
    ensures c.job.reportedAmount.Some? ==> Funded(Init(c))
  {
    var s := Init(c);
    assert Frontier(s) == {c.job.seed};
    SumWithout(s.nodes, Frontier(s), c.job.seed);
    assert {c.job.seed} - {c.job.seed} == {};
  }

  /** The first step is the seed's. */
  lemma FirstPick(c: Config, states: seq<State>, picks: seq<Node>)
    requires Accountable(c) && IsRun(c, states, picks) && picks != []
    ensures picks[0] == c.job.seed
  {
    hide Expand, PlanOf;
    StartBalance(c);
    assert Step(c, states[0], picks[0], states[1]);
  }

  /** What the next step may assume: its address has a balance, and everything else on the frontier a finite one. */
  lemma StepFunded(c: Config, states: seq<State>, picks: seq<Node>, j: nat)
    requires Accountable(c) && IsRun(c, states, picks) && j < |picks| && (Settled(c, j) ==> Funded(states[j]))
    ensures picks[j] in Frontier(states[j]) && Balance(states[j].nodes[picks[j]].taint) && Funded(Mark(states[j], picks[j]))
    ensures Granted(c, states[j], picks[j]) == Brought(c, j + 1) - Brought(c, j)
  {
    hide Expand, PlanOf;
    assert Step(c, states[j], picks[j], states[j + 1]);
    if j == 0 {
      FirstPick(c, states, picks);
      StartBalance(c);
    } else {
      MarkTakesTaint(states[j], picks[j]);
    }
  }

  /**
    * After every step of every run, for a seed with or without a reported amount: taint waiting plus taint kept is what
    * the trace has to account for, plus what bridge crossings minted, plus what repeated keys were credited twice.
    */
  lemma {:induction false} TaintBalance(c: Config, states: seq<State>, picks: seq<Node>, i: nat)
    requires Accountable(c) && IsRun(c, states, picks) && i <= |picks|
    ensures Settled(c, i) ==> Funded(states[i])
    ensures FrontierTaint(states[i]) + KeptUpTo(c, states, picks, i)
         == Brought(c, i) + MintedUpTo(c, states, picks, i) + DoubledUpTo(c, states, picks, i)
    ensures KeptUpTo(c, states, picks, i) >= 0.0 && MintedUpTo(c, states, picks, i) >= 0.0
  {
    hide Expand, Kept, Minted, Doubled, Granted, Funded, Brought;
    if i == 0 {
      StartBalance(c);
    } else {
      TaintBalance(c, states, picks, i - 1);
      assert Step(c, states[i - 1], picks[i - 1], states[i]);
      StepFunded(c, states, picks, i - 1);
      ExpandBalance(c, states[i - 1], picks[i - 1]);
    }
  }

  lemma {:induction false} NeverDoubled(c: Config, states: seq<State>, picks: seq<Node>, i: nat)
    requires Accountable(c) && DistinctOutflows(c) && IsRun(c, states, picks) && i <= |picks|
    ensures DoubledUpTo(c, states, picks, i) == 0.0
  {
    hide Expand, Doubled, Funded;
    if i > 0 {
      NeverDoubled(c, states, picks, i - 1);
      TaintBalance(c, states, picks, i - 1);
      assert Step(c, states[i - 1], picks[i - 1], states[i]);
      StepFunded(c, states, picks, i - 1);
      NothingDoubled(c, states[i - 1], picks[i - 1]);
    }
  }

  lemma FrontierNonNegative(s: State)
    requires Funded(s)
    ensures FrontierTaint(s) >= 0.0
    ensures forall n :: n in Frontier(s) ==> s.nodes[n].taint.usd <= FrontierTaint(s)
  {
    SumBounds(s.nodes, Frontier(s), Node(TRON, ""));
    forall n | n in Frontier(s)
      ensures s.nodes[n].taint.usd <= FrontierTaint(s)
    {
      SumBounds(s.nodes, Frontier(s), n);
    }
  }

  ghost predicate NoResolver(c: Config) {
    forall bridge, leg :: c.resolveBridge(bridge, leg).None?
  }

  lemma {:induction false} NothingMinted(c: Config, states: seq<State>, picks: seq<Node>, i: nat)
    requires NoResolver(c) && IsRun(c, states, picks) && i <= |picks|
    ensures MintedUpTo(c, states, picks, i) == 0.0
  {
    hide Expand, PlanOf;
    if i > 0 {
      NothingMinted(c, states, picks, i - 1);
      assert Step(c, states[i - 1], picks[i - 1], states[i]);
      var s, n := states[i - 1], picks[i - 1];
      match PlanOf(c, n, s.nodes[n])
      case FanOut(legs, _) => NoCrossings(c, s.expanded + {n}, n, s.nodes[n], legs);
      case _ =>
    }
  }

  lemma {:induction false} NoCrossings(c: Config, expanded: set<Node>, n: Node, m: Meta, legs: seq<Transfer>)
    requires NoResolver(c)
    ensures SumBy(legs, e => Crossing(c, expanded, n, m, e)) == 0.0
  {
    if legs != [] {
      NoCrossings(c, expanded, n, m, legs[..|legs| - 1]);
    }
  }

  /** Without a bridge resolver and with unique (txHash, idx) taint is conserved, no address ever holds more than all
      of it, and a run that empties its frontier accounts for all of it. */
  lemma TaintConserved(c: Config, states: seq<State>, picks: seq<Node>, i: nat)
    requires Accountable(c) && DistinctOutflows(c) && NoResolver(c) && IsRun(c, states, picks) && i <= |picks|
    ensures FrontierTaint(states[i]) + KeptUpTo(c, states, picks, i) == Brought(c, i)
    ensures Settled(c, i) ==>
      forall n :: n in Frontier(states[i]) ==> states[i].nodes[n].taint.Fin? && 0.0 <= states[i].nodes[n].taint.usd <= Brought(c, i)
    ensures Frontier(states[i]) == {} ==> KeptUpTo(c, states, picks, i) == Brought(c, i)
  {
    hide KeptUpTo, MintedUpTo, DoubledUpTo, Step, Brought;
    TaintBalance(c, states, picks, i);
    NothingMinted(c, states, picks, i);
    NeverDoubled(c, states, picks, i);
    if Settled(c, i) {
      FrontierNonNegative(states[i]);
    }
  }

  lemma MintedAtNonNegative(c: Config, states: seq<State>, picks: seq<Node>, j: nat)
    requires Accountable(c) && IsRun(c, states, picks) && j < |picks|
    ensures MintedAt(c, states, picks, j) >= 0.0
  {
    hide Expand, Kept, Minted, Doubled, Granted, Funded;
    TaintBalance(c, states, picks, j);
    assert Step(c, states[j], picks[j], states[j + 1]);
    StepFunded(c, states, picks, j);
    ExpandBalance(c, states[j], picks[j]);
  }

  lemma {:induction false} MintedNowhere(c: Config, states: seq<State>, picks: seq<Node>, i: nat)
    requires Accountable(c) && IsRun(c, states, picks) && i <= |picks|
    ensures MintedUpTo(c, states, picks, i) >= 0.0
    ensures MintedUpTo(c, states, picks, i) == 0.0 <==> forall j :: 0 <= j < i ==> MintedAt(c, states, picks, j) == 0.0
  {
    hide MintedAt, Step;
    if i > 0 {
      MintedNowhere(c, states, picks, i - 1);
      MintedAtNonNegative(c, states, picks, i - 1);
    }
  }

  /** A priced bridge leg of a node that holds taint, resolved to an address not expanded yet. */
  ghost predicate PaidLeg(c: Config, expanded: set<Node>, n: Node, m: Meta, leg: Transfer) {
    var resolved := c.resolveBridge(Node(n.chain, leg.to), leg);
    && resolved.Some? && resolved.value !in expanded
    && leg.usd.Some? && leg.usd.value > 0.0 && Less(Fin(0.0), m.taint)
  }

  ghost predicate CrossesPaid(c: Config, s: State, n: Node) {
    n in s.nodes &&
    match PlanOf(c, n, s.nodes[n])
    case FanOut(legs, _) => exists leg :: leg in legs && PaidLeg(c, s.expanded + {n}, n, s.nodes[n], leg)
    case _ => false
  }

  lemma HaircutOfOne(taint: Taint, usd: real, p: real)
    requires Balance(taint) && p == Proportion(taint, usd)
    ensures usd * p > 0.0 <==> usd > 0.0 && Less(Fin(0.0), taint)
  {
    if usd > 0.0 {
      ProportionBounds(taint, usd);
    } else {
      assert p == 0.0;
    }
  }

  /** A bridge leg's share is positive exactly when both its value and the node's balance are. */
  lemma BridgeShareOf(job: Job, taint: Taint, leg: Transfer)
    requires Balance(taint)
    ensures BridgeShare(job, taint, leg) > 0.0 <==> leg.usd.Some? && leg.usd.value > 0.0 && Less(Fin(0.0), taint)
  {
    assert [leg.usd][..0] == [];
    if job.model == HAIRCUT && leg.usd.Some? {
      assert Total([leg.usd]) == leg.usd.value;
      HaircutOfOne(taint, leg.usd.value, Proportion(taint, leg.usd.value));
    }
  }

  lemma {:induction false} CrossingsIff(c: Config, expanded: set<Node>, n: Node, m: Meta, legs: seq<Transfer>)
    requires Balance(m.taint)
    ensures var sum := SumBy(legs, e => Crossing(c, expanded, n, m, e));
      sum >= 0.0 && (sum > 0.0 <==> exists leg :: leg in legs && PaidLeg(c, expanded, n, m, leg))
  {
    hide BridgeShare, Balance;
    if legs != [] {
      var k := |legs| - 1;
      CrossingsIff(c, expanded, n, m, legs[..k]);
      BridgeShareOf(c.job, m.taint, legs[k]);
      assert Crossing(c, expanded, n, m, legs[k]) > 0.0 <==> PaidLeg(c, expanded, n, m, legs[k]);
      assert legs == legs[..k] + [legs[k]];
    }
  }

  /** A step mints taint exactly when it crosses a paid leg. */
  lemma MintedIff(c: Config, s: State, n: Node)
    requires n in s.nodes && Balance(s.nodes[n].taint)
    ensures Minted(c, s, n) == 0.0 <==> !CrossesPaid(c, s, n)
  {
    hide PlanOf, Crossing, PaidLeg;
    match PlanOf(c, n, s.nodes[n])
    case FanOut(legs, _) => CrossingsIff(c, s.expanded + {n}, n, s.nodes[n], legs);
    case _ =>
  }

  /** With unique (txHash, idx), taint is conserved up to step i exactly when no step before i crossed a bridge leg of
      positive value, out of a node of positive or unbounded balance, to an address that was not expanded yet. */
  lemma ConservedExactlyWhen(c: Config, states: seq<State>, picks: seq<Node>, i: nat)
    requires Accountable(c) && DistinctOutflows(c) && IsRun(c, states, picks) && i <= |picks|
    ensures FrontierTaint(states[i]) + KeptUpTo(c, states, picks, i) == Brought(c, i)
       <==> forall j :: 0 <= j < i ==> !CrossesPaid(c, states[j], picks[j])
  {
    hide Minted, CrossesPaid, KeptUpTo, MintedUpTo, DoubledUpTo, Funded, Expand, PlanOf, Brought;
    TaintBalance(c, states, picks, i);
    NeverDoubled(c, states, picks, i);
    MintedNowhere(c, states, picks, i);
    forall j | 0 <= j < i
      ensures MintedAt(c, states, picks, j) == 0.0 <==> !CrossesPaid(c, states[j], picks[j])
    {
      TaintBalance(c, states, picks, j);
      assert Step(c, states[j], picks[j], states[j + 1]);
      StepFunded(c, states, picks, j);
      MintedIff(c, states[j], picks[j]);
    }
  }

  // ---- a resolver that breaks conservation ----

  const SEED := Node(TRON, "seed")
  const LEG := Transfer("tx", 1, "seed", "bridge", "USDT", "100", Some(100.0), 5)

  /** One transfer of 100 USD into a bridge whose far side is known. */
  function BridgedTrace(): Config {
    Config(
      Job(SEED, HAIRCUT, 6, 10.0, 30, 0, Some(100.0)),
      (n, since) => if n == SEED then Some([LEG]) else Some([]),
      (n, since) => Some([]),
      n => None,
      n => false,
      (n: Node) => n.addr == "bridge",
      (bridge, leg) => Some(Node(ETH, "far")),
      10, 5000, 5000)
  }

  lemma BridgedOutflow(m: Meta)
    requires m == Init(BridgedTrace()).nodes[SEED]
    ensures Relevant(BridgedTrace(), m, [LEG]) == [LEG]
  {
    var c := BridgedTrace();
    FilterOne(LEG, (t: Transfer) => t.amount != "0" && InWindow(c.job, t.ts) && t.ts >= Since(c.job, m));
  }

  lemma BridgedSplit(c: Config)
    requires c == BridgedTrace()
    ensures Split(c, SEED, [LEG], {}) == FanOut([LEG], [])
  {
    var none: set<EdgeKey> := {};
    FilterOne(LEG, (t: Transfer) => EdgeKeyOf(t) !in none);
    FilterOne(LEG, (t: Transfer) => ToBridge(c, SEED, t));
    FilterOne(LEG, (t: Transfer) => !ToBridge(c, SEED, t));
  }

  lemma BridgedPlan(c: Config, m: Meta)
    requires c == BridgedTrace() && m == Init(c).nodes[SEED]
    ensures PlanOf(c, SEED, m) == FanOut([LEG], [])
  {
    hide Relevant, Split;
    BridgedOutflow(m);
    BridgedSplit(c);
    assert (set t | t in [LEG] :: t.to) == {"bridge"};
    assert !exists t :: t in [LEG] && ToRouter(c, SEED, t);
    assert PlanOutflows(c, SEED, m, [LEG]) == FanOut([LEG], []);
  }

  lemma FilterOne<T(!new)>(x: T, p: T -> bool)
    ensures Filter([x], p) == if p(x) then [x] else []
  {
    assert [x][..0] == [];
  }

  lemma BridgedShare(c: Config)
    requires c == BridgedTrace()
    ensures BridgeShare(c.job, Fin(100.0), LEG) == 100.0
  {
    var usd := [Some(100.0)];
    assert usd[..0] == [];
    assert Total(usd) == 100.0;
    AllotsExactly(HAIRCUT, Fin(100.0), usd);
    var shares := Allocate(HAIRCUT, Fin(100.0), usd);
    assert shares[..0] == [];
    assert Sum(shares) == shares[0];
  }

  /** The 100 USD are both kept at the seed and put on the frontier across the bridge. */
  lemma BridgeDoublesTaint(c: Config, s: State)
    requires c == BridgedTrace() && s == Init(c)
    ensures Accountable(c) && DistinctOutflows(c) && SEED in s.nodes
    ensures FrontierTaint(Expand(c, s, SEED)) + Kept(c, s, SEED) == 200.0
  {
    hide PlanOf, Expand, Kept, BridgeShare;
    forall n, since
      ensures UniqueKeys(c.outflows(n, since).value)
    {
      assert [LEG][..0] == [] && BagBy([LEG], EdgeKeyOf) == multiset{EdgeKeyOf(LEG)};
      NoKeys();
    }
    StartBalance(c);
    var m := s.nodes[SEED];
    BridgedPlan(c, m);
    ExpandBalance(c, s, SEED);
    NothingDoubled(c, s, SEED);
    BridgedShare(c);
    var gain := (e: Transfer) => Crossing(c, s.expanded + {SEED}, SEED, m, e);
    SumOfOne(LEG, gain);
    assert gain(LEG) == 100.0;
    SumByAgrees([LEG], gain, e => Crossing(c, s.expanded + {SEED}, SEED, m, e));
  }

  lemma SumOfOne<T>(x: T, f: T -> real)
    ensures SumBy([x], f) == f(x)
  {
    assert [x][..0] == [];
  }
}
