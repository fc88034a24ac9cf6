// workers/trace/engine.ts:103-105, 221-291: what the loop does with an address it pops, said of the transfers themselves.
// Nothing here is stated through the sort order, the filters or the swap-leg set of TraceModel.
module TraceSelection {
  import opened Wrappers
  import opened Sequences
  import opened Transfers
  import opened TraceModel

  /** How many of n `slice(0, k)` keeps. */
  function Kept(k: int, n: nat): nat {
    if k >= n then n else if k >= 0 then k else if n + k >= 0 then n + k else 0
  }

  // ---- the greatest transfers ----

  /** x is worth more than y. An unpriced transfer is worth less than a priced one. */
  predicate WorthMore(x: Transfer, y: Transfer) {
    x.usd.Some? && if y.usd.Some? then x.usd.value > y.usd.value else x.usd.value >= 0.0
  }

  /** top holds k of the transfers in s that satisfy p, or all if there are fewer, the greatest in USD value first;
      none is left out that is worth more than one taken. */
  ghost predicate Greatest(top: seq<Transfer>, s: seq<Transfer>, p: Transfer -> bool, k: int) {
    && |top| == Kept(k, |Places(s, p)|)
    && (forall x :: x in top ==> p(x) && multiset(top)[x] <= multiset(s)[x])
    && (forall x, y :: x in s && p(x) && multiset(top)[x] < multiset(s)[x] && y in top ==> !WorthMore(x, y))
    && (forall i, j :: 0 <= i < j < |top| ==> !WorthMore(top[j], top[i]))
  }

  lemma ByUsdRanks(a: Transfer, b: Transfer)
    requires ByUsd(a, b)
    ensures !WorthMore(b, a)
  {
  }

  lemma ByUsdOrders()
    ensures TotalPreorder(ByUsd)
  {
  }

  /** The sorted edges, cut in two: nothing behind the cut is worth more than what is before it. */
  ghost predicate Cut(top: seq<Transfer>, rest: seq<Transfer>) {
    && (forall i, j :: 0 <= i < |top| && 0 <= j < |rest| ==> !WorthMore(rest[j], top[i]))
    && (forall i, j :: 0 <= i < j < |top| ==> !WorthMore(top[j], top[i]))
  }

  lemma TopIsCut(pool: seq<Transfer>, k: int) returns (rest: seq<Transfer>)
    ensures Cut(TopByUsd(pool, k), rest) && |TopByUsd(pool, k)| == Kept(k, |pool|)
    ensures forall x :: multiset(pool)[x] == multiset(TopByUsd(pool, k))[x] + multiset(rest)[x]
  {
    hide Sort, WorthMore, ByUsd;
    var sorted, top := Sort(pool, ByUsd), TopByUsd(pool, k);
    ByUsdOrders();
    SortSorts(pool, ByUsd);
    SortMultiset(pool, ByUsd);
    rest := sorted[|top|..];
    assert sorted == top + rest;
    forall i, j | 0 <= i < j < |sorted|
      ensures !WorthMore(sorted[j], sorted[i])
    {
      ByUsdRanks(sorted[i], sorted[j]);
    }
    assert forall j :: 0 <= j < |rest| ==> rest[j] == sorted[|top| + j];
  }

  lemma TopIsGreatest(s: seq<Transfer>, p: Transfer -> bool, k: int)
    ensures Greatest(TopByUsd(Filter(s, p), k), s, p, k)
  {
    hide TopByUsd, Filter, WorthMore, Places;
    var top := TopByUsd(Filter(s, p), k);
    FilterCounts(s, p);
    var rest := TopIsCut(Filter(s, p), k);
    forall x
      ensures multiset(top)[x] + multiset(rest)[x] == if p(x) then multiset(s)[x] else 0
    {
      FilterBags(s, p, x);
    }
    forall x | x in top
      ensures p(x) && multiset(top)[x] <= multiset(s)[x]
    {
      assert multiset(top)[x] > 0;
    }
    forall x, y | x in s && p(x) && multiset(top)[x] < multiset(s)[x] && y in top
      ensures !WorthMore(x, y)
    {
      assert x in multiset(rest);
      var i :| 0 <= i < |top| && top[i] == y;
      var j :| 0 <= j < |rest| && rest[j] == x;
    }
  }

  /** So where prices are not negative, an unpriced transfer is taken only when every priced one is. */
  lemma UnpricedLast(top: seq<Transfer>, s: seq<Transfer>, p: Transfer -> bool, k: int, x: Transfer, y: Transfer)
    requires Greatest(top, s, p, k) && y in top && y.usd.None?
    requires x in s && p(x) && x.usd.Some? && x.usd.value >= 0.0
    ensures multiset(top)[x] == multiset(s)[x]
  {
    assert WorthMore(x, y);
    if x in top {
      assert multiset(top)[x] <= multiset(s)[x];
    }
  }

  // ---- what becomes of an address ----

  function Later(a: int, b: int): int {
    if a > b then a else b
  }

  /** The walk of the outflows, from the later of the first taint and the start of the window. */
  function Collected(c: Config, n: Node, m: Meta): Option<seq<Transfer>> {
    c.outflows(n, Later(m.firstTaintedAt, c.job.createdAt))
  }

  function Inbound(c: Config, n: Node, m: Meta): Option<seq<Transfer>> {
    c.inflows(n, Later(m.firstTaintedAt, c.job.createdAt))
  }

  /** t moves something, inside the window and not before the address was tainted. */
  predicate Timely(c: Config, m: Meta, t: Transfer) {
    && t.amount != "0" && m.firstTaintedAt <= t.ts
    && c.job.createdAt <= t.ts <= c.job.createdAt + c.job.windowDays * 24 * 60 * 60 * 1000
  }

  /** Some timely outflow with t's hash and index goes to a router, and a router sends another token back in that transaction. */
  ghost predicate Swapped(c: Config, n: Node, m: Meta, collected: seq<Transfer>, inbound: seq<Transfer>, t: Transfer) {
    exists o, i :: o in collected && i in inbound && SwapPair(c, n, m, o, i) && o.txHash == t.txHash && o.idx == t.idx
  }

  predicate SwapPair(c: Config, n: Node, m: Meta, o: Transfer, i: Transfer) {
    && Timely(c, m, o) && c.isDexRouter(Node(n.chain, o.to)) && c.isDexRouter(Node(n.chain, i.from))
    && i.txHash == o.txHash && i.token != o.token
  }

  ghost predicate Leg(c: Config, n: Node, m: Meta, collected: seq<Transfer>, inbound: seq<Transfer>, t: Transfer) {
    Timely(c, m, t) && !Swapped(c, n, m, collected, inbound, t) && c.isBridge(Node(n.chain, t.to))
  }

  ghost predicate Candidate(c: Config, n: Node, m: Meta, collected: seq<Transfer>, inbound: seq<Transfer>, t: Transfer) {
    && Timely(c, m, t) && !Swapped(c, n, m, collected, inbound, t) && !c.isBridge(Node(n.chain, t.to))
    && (t.usd.Some? ==> t.usd.value >= c.job.minValueUsd)
  }

  /** n is no labelled service and not too far out, and its outflows could be read. */
  ghost predicate Opened(c: Config, n: Node, m: Meta) {
    c.labelOf(n).None? && m.hop < c.job.maxHops && Collected(c, n, m).Some?
  }

  ghost predicate TooMany(c: Config, m: Meta, collected: seq<Transfer>) {
    |set t | t in collected && Timely(c, m, t) :: t.to| > c.highDegreeCutoff
  }

  ghost predicate UsesRouter(c: Config, n: Node, m: Meta, collected: seq<Transfer>) {
    exists t :: t in collected && Timely(c, m, t) && c.isDexRouter(Node(n.chain, t.to))
  }

  /** The reason a label gives, or the hop limit; nothing else stops an address before its outflows are read. */
  lemma StopsIff(c: Config, n: Node, m: Meta)
    ensures PlanOf(c, n, m).Stop? <==> c.labelOf(n).Some? || m.hop >= c.job.maxHops
    ensures PlanOf(c, n, m) == Stop(Exchange) <==> c.labelOf(n) == Some(ExchangeLabel)
    ensures PlanOf(c, n, m) == Stop(Mixer) <==> c.labelOf(n) == Some(MixerLabel)
    ensures PlanOf(c, n, m) == Stop(Sanctioned) <==> c.labelOf(n) == Some(SanctionedLabel)
    ensures PlanOf(c, n, m) == Stop(BridgeUnresolved) <==> c.labelOf(n) == Some(BridgeLabel)
    ensures PlanOf(c, n, m) == Stop(MaxHops) <==> c.labelOf(n).None? && m.hop >= c.job.maxHops
  {
    hide PlanOutflows;
    var collected := c.outflows(n, Since(c.job, m));
    if collected.Some? {
      PlanGoesOn(c, n, m, Relevant(c, m, collected.value));
    }
  }

  lemma PlanGoesOn(c: Config, n: Node, m: Meta, outs: seq<Transfer>)
    ensures !PlanOutflows(c, n, m, outs).Stop?
  {
    hide TopByUsd, Filter, SwapLegs;
  }

  lemma RelevantIsTimely(c: Config, m: Meta, collected: seq<Transfer>)
    ensures Relevant(c, m, collected) == Filter(collected, (t: Transfer) => Timely(c, m, t))
    ensures forall t :: t in Relevant(c, m, collected) <==> t in collected && Timely(c, m, t)
  {
    FilterAgrees(collected, (t: Transfer) => t.amount != "0" && InWindow(c.job, t.ts) && t.ts >= Since(c.job, m),
                 (t: Transfer) => Timely(c, m, t));
  }

  lemma {:induction false} FilterTwice<T(!new)>(s: seq<T>, p: T -> bool, q: T -> bool, both: T -> bool)
    requires forall x :: both(x) == (p(x) && q(x))
    ensures Filter(Filter(s, p), q) == Filter(s, both)
  {
    if s != [] {
      var n := |s| - 1;
      FilterTwice(s[..n], p, q, both);
      if p(s[n]) {
        var kept := Filter(s[..n], p);
        assert (kept + [s[n]])[..|kept|] == kept;
      }
    }
  }

  /** The keys the source collects are those of the swapped outflows. */
  lemma SwapLegsAreSwapped(c: Config, n: Node, m: Meta, collected: seq<Transfer>, inbound: seq<Transfer>, t: Transfer)
    ensures EdgeKeyOf(t) in SwapLegs(c, n, Relevant(c, m, collected), inbound) <==> Swapped(c, n, m, collected, inbound, t)
  {
    hide Relevant, Timely, Filter;
    RelevantIsTimely(c, m, collected);
    if Swapped(c, n, m, collected, inbound, t) {
      var o, i :| o in collected && i in inbound && SwapPair(c, n, m, o, i) && o.txHash == t.txHash && o.idx == t.idx;
      assert o in Relevant(c, m, collected) && EdgeKeyOf(o) == EdgeKeyOf(t);
    }
    if EdgeKeyOf(t) in SwapLegs(c, n, Relevant(c, m, collected), inbound) {
      var o :| o in Relevant(c, m, collected) && ToRouter(c, n, o) && EdgeKeyOf(o) == EdgeKeyOf(t) &&
        exists i :: i in inbound && i.txHash == o.txHash && i.token != o.token && c.isDexRouter(Node(n.chain, i.from));
      var i :| i in inbound && i.txHash == o.txHash && i.token != o.token && c.isDexRouter(Node(n.chain, i.from));
      assert SwapPair(c, n, m, o, i);
    }
  }

  /** What the split makes of the relevant outflows, given which of them are swapped. */
  lemma SplitSelects(c: Config, n: Node, m: Meta, collected: seq<Transfer>, inbound: seq<Transfer>, legs: set<EdgeKey>)
    requires forall t :: EdgeKeyOf(t) in legs <==> Swapped(c, n, m, collected, inbound, t)
    ensures var plan := Split(c, n, Relevant(c, m, collected), legs);
      && plan.FanOut?
      && KeptInOrder(plan.bridgeLegs, collected, t => Leg(c, n, m, collected, inbound, t))
      && Greatest(plan.top, collected, t => Candidate(c, n, m, collected, inbound, t), c.topK)
  {
    hide Relevant, Timely, Filter, Swapped, TopByUsd, KeptInOrder, Greatest;
    RelevantIsTimely(c, m, collected);
    var timely := (t: Transfer) => Timely(c, m, t);
    var noSwap := (t: Transfer) => EdgeKeyOf(t) !in legs;
    var toBridge, elsewhere := (t: Transfer) => ToBridge(c, n, t), (t: Transfer) => !ToBridge(c, n, t);
    var enough := (t: Transfer) => MeetsMinValue(t.usd, c.job.minValueUsd);
    var kept := (t: Transfer) => Timely(c, m, t) && EdgeKeyOf(t) !in legs;
    var rest := (t: Transfer) => Timely(c, m, t) && EdgeKeyOf(t) !in legs && !ToBridge(c, n, t);
    FilterTwice(collected, timely, noSwap, kept);
    FilterTwice(collected, kept, toBridge, t => Leg(c, n, m, collected, inbound, t));
    FilterTwice(collected, kept, elsewhere, rest);
    FilterTwice(collected, rest, enough, t => Candidate(c, n, m, collected, inbound, t));
    FilterKeeps(collected, t => Leg(c, n, m, collected, inbound, t));
    TopIsGreatest(collected, t => Candidate(c, n, m, collected, inbound, t), c.topK);
  }

  /** The inbound transfers, which are read only where an outflow goes to a router. */
  function Returned(c: Config, n: Node, m: Meta): seq<Transfer> {
    if Inbound(c, n, m).None? then [] else Inbound(c, n, m).value
  }

  ghost predicate BackFails(c: Config, n: Node, m: Meta, collected: seq<Transfer>) {
    UsesRouter(c, n, m, collected) && Inbound(c, n, m).None?
  }

  lemma OutflowsCounted(c: Config, m: Meta, collected: seq<Transfer>)
    ensures |set t | t in Relevant(c, m, collected) :: t.to| > c.highDegreeCutoff <==> TooMany(c, m, collected)
  {
    hide Relevant, Timely;
    RelevantIsTimely(c, m, collected);
    assert (set t | t in Relevant(c, m, collected) :: t.to) == set t | t in collected && Timely(c, m, t) :: t.to;
  }

  lemma PlanOfCollected(c: Config, n: Node, m: Meta, collected: seq<Transfer>) returns (legs: set<EdgeKey>)
    requires !TooMany(c, m, collected) && !BackFails(c, n, m, collected)
    ensures PlanOutflows(c, n, m, Relevant(c, m, collected)) == Split(c, n, Relevant(c, m, collected), legs)
    ensures forall t :: EdgeKeyOf(t) in legs <==> Swapped(c, n, m, collected, Returned(c, n, m), t)
  {
    hide Relevant, Timely, Split, SwapLegs, TooMany;
    OutflowsCounted(c, m, collected);
    RelevantIsTimely(c, m, collected);
    var outs := Relevant(c, m, collected);
    assert (exists t :: t in outs && ToRouter(c, n, t)) <==> UsesRouter(c, n, m, collected);
    legs := if UsesRouter(c, n, m, collected) then SwapLegs(c, n, outs, Returned(c, n, m)) else {};
    forall t
      ensures EdgeKeyOf(t) in legs <==> Swapped(c, n, m, collected, Returned(c, n, m), t)
    {
      SwapLegsAreSwapped(c, n, m, collected, Returned(c, n, m), t);
    }
    assert PlanOutflows(c, n, m, outs) == Split(c, n, outs, legs);
  }

  /** An address is followed, or shown as a service with too many recipients, or its expansion fails, exactly as its
      collected outflows say. */
  lemma PlanIff(c: Config, n: Node, m: Meta)
    ensures PlanOf(c, n, m).HighDegree? <==> (Opened(c, n, m) && TooMany(c, m, Collected(c, n, m).value))
    ensures PlanOf(c, n, m).FanOut? <==>
      (Opened(c, n, m) && !TooMany(c, m, Collected(c, n, m).value) && !BackFails(c, n, m, Collected(c, n, m).value))
    ensures PlanOf(c, n, m).Fails? <==>
      (c.labelOf(n).None? && m.hop < c.job.maxHops &&
       (Collected(c, n, m).None? ||
        (!TooMany(c, m, Collected(c, n, m).value) && BackFails(c, n, m, Collected(c, n, m).value))))
  {
    hide Relevant, Timely, Split, SwapLegs, TooMany, TopByUsd;
    StopsIff(c, n, m);
    if Opened(c, n, m) {
      var collected := Collected(c, n, m).value;
      assert PlanOf(c, n, m) == PlanOutflows(c, n, m, Relevant(c, m, collected));
      OutflowsCounted(c, m, collected);
      if !TooMany(c, m, collected) {
        if BackFails(c, n, m, collected) {
          FailsBack(c, n, m, collected);
        } else {
          var legs := PlanOfCollected(c, n, m, collected);
          SplitFansOut(c, n, Relevant(c, m, collected), legs);
        }
      }
    }
  }

  lemma SplitFansOut(c: Config, n: Node, outs: seq<Transfer>, legs: set<EdgeKey>)
    ensures Split(c, n, outs, legs).FanOut?
  {
  }

  lemma FailsBack(c: Config, n: Node, m: Meta, collected: seq<Transfer>)
    requires !TooMany(c, m, collected) && BackFails(c, n, m, collected)
    ensures PlanOutflows(c, n, m, Relevant(c, m, collected)).Fails?
  {
    hide Relevant, Timely, Split, SwapLegs, TooMany, TopByUsd;
    OutflowsCounted(c, m, collected);
    RelevantIsTimely(c, m, collected);
    assert exists t :: t in Relevant(c, m, collected) && ToRouter(c, n, t);
  }

  /** A fan-out follows every bridge leg in order, and of the candidates the topK greatest in USD value. */
  lemma FanOutSelects(c: Config, n: Node, m: Meta)
    requires PlanOf(c, n, m).FanOut?
    ensures Opened(c, n, m)
    ensures var (plan, collected, inbound) := (PlanOf(c, n, m), Collected(c, n, m).value, Returned(c, n, m));
      && KeptInOrder(plan.bridgeLegs, collected, t => Leg(c, n, m, collected, inbound, t))
      && Greatest(plan.top, collected, t => Candidate(c, n, m, collected, inbound, t), c.topK)
  {
    hide PlanOf, Leg, Candidate, Greatest, KeptInOrder, TooMany, BackFails, Swapped, Split, Relevant;
    PlanIff(c, n, m);
    var collected := Collected(c, n, m).value;
    var legs := PlanOfCollected(c, n, m, collected);
    SplitSelects(c, n, m, collected, Returned(c, n, m), legs);
    PlanUnfolds(c, n, m);
  }

  lemma PlanUnfolds(c: Config, n: Node, m: Meta)
    requires Opened(c, n, m)
    ensures PlanOf(c, n, m) == PlanOutflows(c, n, m, Relevant(c, m, Collected(c, n, m).value))
  {
    hide PlanOutflows, Relevant;
  }

  /** A service with too many recipients shows the topK greatest of its timely outflows, whatever their worth. */
  lemma HighDegreeShows(c: Config, n: Node, m: Meta)
    requires PlanOf(c, n, m).HighDegree?
    ensures Opened(c, n, m)
    ensures Greatest(PlanOf(c, n, m).shown, Collected(c, n, m).value, t => Timely(c, m, t), c.topK)
  {
    hide PlanOf, Greatest, TooMany, BackFails, Relevant, Timely, TopByUsd;
    PlanIff(c, n, m);
    PlanUnfolds(c, n, m);
    var collected := Collected(c, n, m).value;
    RelevantIsTimely(c, m, collected);
    OutflowsCounted(c, m, collected);
    TopIsGreatest(collected, t => Timely(c, m, t), c.topK);
  }
}
