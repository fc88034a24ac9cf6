// workers/trace/engine.ts: what expanding one node does, as functions on values.
// TraceEngine.dfy holds the loop itself, over a heap and mutable maps.
module TraceModel {
  import opened Wrappers
  import opened Taints
  import opened TaintAllocation
  import opened Sequences
  import opened Transfers

  datatype Chain = TRON | ETH | BSC | POLYGON | BTC

  /** A (chain, address) pair: the engine's key `chain:addr`. No chain name holds a colon. */
  datatype Node = Node(chain: Chain, addr: string)

  datatype Category = ExchangeLabel | MixerLabel | BridgeLabel | SanctionedLabel

  datatype Reason = Exchange | Mixer | Sanctioned | BridgeUnresolved | MaxHops | HighDegreeService

  datatype Terminal = Terminal(node: Node, reason: Reason)

  datatype Meta = Meta(taint: Taint, hop: nat, firstTaintedAt: int)

  /** One Hop row; token, amount, usd and ts are those of the transfer. */
  datatype Row = Row(hopNo: nat, from: Node, edge: Transfer)

  datatype GraphHop = GraphHop(from: Node, edge: Transfer)

  datatype Job = Job(
    seed: Node, model: TaintModel, maxHops: int, minValueUsd: real,
    windowDays: int, createdAt: int, reportedAmount: Option<real>)

  /** The engine's surroundings. A walk of an address's transfers yields None when the adapter throws;
      without a bridge resolver every crossing resolves to None. */
  datatype Config = Config(
    job: Job,
    outflows: (Node, int) -> Option<seq<Transfer>>,
    inflows: (Node, int) -> Option<seq<Transfer>>,
    labelOf: Node -> Option<Category>,
    isDexRouter: Node -> bool,
    isBridge: Node -> bool,
    resolveBridge: (Node, Transfer) -> Option<Node>,
    topK: int,
    highDegreeCutoff: int,
    maxNodes: int)

  // ---- stop conditions and edge selection ----

  const DAY_MS := 86_400_000

  function ReasonOf(c: Category): Reason {
    match c
    case MixerLabel => Mixer
    case SanctionedLabel => Sanctioned
    case BridgeLabel => BridgeUnresolved
    case ExchangeLabel => Exchange
  }

  predicate InWindow(job: Job, ts: int) {
    job.createdAt <= ts <= job.createdAt + job.windowDays * DAY_MS
  }

  predicate MeetsMinValue(usd: Option<real>, minValueUsd: real) {
    usd.None? || usd.value >= minValueUsd
  }

  /** Greatest USD value first, unpriced edges counting as -1. */
  predicate ByUsd(a: Transfer, b: Transfer) {
    RankUsd(a) >= RankUsd(b)
  }

  function RankUsd(t: Transfer): real {
    if t.usd.None? then -1.0 else t.usd.value
  }

  predicate ByTime(a: Transfer, b: Transfer) {
    a.ts <= b.ts
  }

  function TopByUsd(edges: seq<Transfer>, k: int): seq<Transfer> {
    SliceTo(Sort(edges, ByUsd), k)
  }

  /** What the engine does with one node once it is popped. */
  datatype Plan =
    | Fails
    | Stop(reason: Reason)
    | HighDegree(shown: seq<Transfer>)
    | FanOut(bridgeLegs: seq<Transfer>, top: seq<Transfer>)

  function Since(job: Job, m: Meta): int {
    if m.firstTaintedAt >= job.createdAt then m.firstTaintedAt else job.createdAt
  }

  /** The collected outflows that move something and lie inside the window. */
  function Relevant(c: Config, m: Meta, collected: seq<Transfer>): seq<Transfer> {
    Filter(collected, (t: Transfer) => t.amount != "0" && InWindow(c.job, t.ts) && t.ts >= Since(c.job, m))
  }

  predicate ToRouter(c: Config, n: Node, t: Transfer) {
    c.isDexRouter(Node(n.chain, t.to))
  }

  predicate ToBridge(c: Config, n: Node, t: Transfer) {
    c.isBridge(Node(n.chain, t.to))
  }

  function SwapLegs(c: Config, n: Node, outs: seq<Transfer>, inbound: seq<Transfer>): set<EdgeKey> {
    set o | o in outs && ToRouter(c, n, o) &&
            (exists i | i in inbound :: i.txHash == o.txHash && i.token != o.token && c.isDexRouter(Node(n.chain, i.from)))
      :: EdgeKeyOf(o)
  }

  function Split(c: Config, n: Node, outs: seq<Transfer>, swapLegs: set<EdgeKey>): Plan {
    var nonSwap := Filter(outs, (t: Transfer) => EdgeKeyOf(t) !in swapLegs);
    var bridgeLegs := Filter(nonSwap, (t: Transfer) => ToBridge(c, n, t));
    var candidates := Filter(nonSwap, (t: Transfer) => !ToBridge(c, n, t));
    var priced := Filter(candidates, (t: Transfer) => MeetsMinValue(t.usd, c.job.minValueUsd));
    FanOut(bridgeLegs, TopByUsd(priced, c.topK))
  }

  function PlanOutflows(c: Config, n: Node, m: Meta, outs: seq<Transfer>): Plan {
    var counterparties := set t | t in outs :: t.to;
    if |counterparties| > c.highDegreeCutoff then HighDegree(TopByUsd(outs, c.topK))
    else if exists t :: t in outs && ToRouter(c, n, t) then
      var inbound := c.inflows(n, Since(c.job, m));
      if inbound.None? then Fails else Split(c, n, outs, SwapLegs(c, n, outs, inbound.value))
    else Split(c, n, outs, {})
  }

  function PlanOf(c: Config, n: Node, m: Meta): Plan {
    var service := c.labelOf(n);
    if service.Some? then Stop(ReasonOf(service.value))
    else if m.hop >= c.job.maxHops then Stop(MaxHops)
    else
      var collected := c.outflows(n, Since(c.job, m));
      if collected.None? then Fails else PlanOutflows(c, n, m, Relevant(c, m, collected.value))
  }

  // ---- taint shares of the selected edges ----

  function Values(edges: seq<Transfer>): Amounts {
    seq(|edges|, i requires 0 <= i < |edges| => edges[i].usd)
  }

  /** `new Map(order.map((t, i) => [edgeKey(t), shares[i]]))`: the last edge with a key wins. */
  function ShareMap(order: seq<Transfer>, shares: seq<real>): map<EdgeKey, real>
    requires |order| == |shares|
  {
    if order == [] then map[]
    else
      var k := |order| - 1;
      ShareMap(order[..k], shares[..k])[EdgeKeyOf(order[k]) := shares[k]]
  }

  function Shares(job: Job, taint: Taint, top: seq<Transfer>): map<EdgeKey, real> {
    var order := if job.model == FIFO then Sort(top, ByTime) else top;
    ShareMap(order, Allocate(job.model, taint, Values(order)))
  }

  function ShareOf(shares: map<EdgeKey, real>, t: Transfer): real {
    if EdgeKeyOf(t) in shares then shares[EdgeKeyOf(t)] else 0.0
  }

  function BridgeShare(job: Job, taint: Taint, t: Transfer): real {
    Allocate(job.model, taint, [t.usd])[0]
  }

  // ---- the state and its updates ----

  datatype State = State(
    nodes: map<Node, Meta>, expanded: set<Node>, terminals: seq<Terminal>, rows: seq<Row>)

  function Init(c: Config): State {
    var taint := if c.job.reportedAmount.None? then Inf else Fin(c.job.reportedAmount.value);
    State(map[c.job.seed := Meta(taint, 0, c.job.createdAt)], {}, [], [])
  }

  function MinInt(a: int, b: int): int {
    if a <= b then a else b
  }

  /** A new share of taint arrives at `child`; a node that is already expanded takes no more. */
  function PushChild(s: State, child: Node, share: real, hop: nat, ts: int): State {
    if child in s.expanded then s
    else s.(nodes := s.nodes[child := Arrive(s.nodes, child, share, hop, ts)])
  }

  function Arrive(nodes: map<Node, Meta>, child: Node, share: real, hop: nat, ts: int): Meta {
    if child in nodes then
      var m := nodes[child];
      Meta(Plus(m.taint, share), MinInt(m.hop, hop), MinInt(m.firstTaintedAt, ts))
    else Meta(Fin(share), hop, ts)
  }

  function WithRows(rows: seq<Row>, from: Node, edges: seq<Transfer>): seq<Row> {
    if edges == [] then rows
    else
      var before := WithRows(rows, from, edges[..|edges| - 1]);
      before + [Row(|before| + 1, from, edges[|edges| - 1])]
  }

  function CrossBridge(c: Config, s: State, n: Node, m: Meta, leg: Transfer): State {
    var bridge := Node(n.chain, leg.to);
    var s1 := s.(rows := WithRows(s.rows, n, [leg]));
    var resolved := c.resolveBridge(bridge, leg);
    if resolved.None? then s1.(terminals := s1.terminals + [Terminal(bridge, BridgeUnresolved)])
    else
      var share := BridgeShare(c.job, m.taint, leg);
      if share > 0.0 then PushChild(s1, resolved.value, share, m.hop + 1, leg.ts) else s1
  }

  function CrossBridges(c: Config, s: State, n: Node, m: Meta, legs: seq<Transfer>): State {
    if legs == [] then s
    else CrossBridge(c, CrossBridges(c, s, n, m, legs[..|legs| - 1]), n, m, legs[|legs| - 1])
  }

  function PushEdge(s: State, n: Node, m: Meta, shares: map<EdgeKey, real>, edge: Transfer): State {
    var share := ShareOf(shares, edge);
    if share > 0.0 then PushChild(s, Node(n.chain, edge.to), share, m.hop + 1, edge.ts) else s
  }

  function PushTop(s: State, n: Node, m: Meta, shares: map<EdgeKey, real>, top: seq<Transfer>): State {
    if top == [] then s
    else PushEdge(PushTop(s, n, m, shares, top[..|top| - 1]), n, m, shares, top[|top| - 1])
  }

  function FanOutStep(c: Config, s: State, n: Node, m: Meta, legs: seq<Transfer>, top: seq<Transfer>): State {
    var crossed := CrossBridges(c, s, n, m, legs);
    var persisted := crossed.(rows := WithRows(crossed.rows, n, top));
    PushTop(persisted, n, m, Shares(c.job, m.taint, top), top)
  }

  function Mark(s: State, n: Node): State {
    s.(expanded := s.expanded + {n})
  }

  /** Everything one iteration of the loop does to a fresh, unexpanded node. */
  function Expand(c: Config, s: State, n: Node): State
    requires n in s.nodes
  {
    var m := s.nodes[n];
    var s1 := Mark(s, n);
    match PlanOf(c, n, m)
    case Fails => s1
    case Stop(reason) => s1.(terminals := s1.terminals + [Terminal(n, reason)])
    case HighDegree(shown) =>
      s1.(terminals := s1.terminals + [Terminal(n, HighDegreeService)], rows := WithRows(s1.rows, n, shown))
    case FanOut(legs, top) => FanOutStep(c, s1, n, m, legs, top)
  }

  // ---- runs: the frontier is a plain map and every step takes a greatest taint ----

  ghost function Frontier(s: State): set<Node> {
    s.nodes.Keys - s.expanded
  }

  ghost predicate IsGreatest(s: State, n: Node) {
    n in Frontier(s) && forall m :: m in Frontier(s) ==> Leq(s.nodes[m].taint, s.nodes[n].taint)
  }

  ghost predicate Step(c: Config, s: State, n: Node, s': State) {
    IsGreatest(s, n) && !PlanOf(c, n, s.nodes[n]).Fails? && s' == Expand(c, s, n)
  }

  /** states[i] --picks[i]--> states[i + 1], from the seed on. */
  ghost predicate IsRun(c: Config, states: seq<State>, picks: seq<Node>) {
    |states| == |picks| + 1 && states[0] == Init(c) &&
    forall i :: 0 <= i < |picks| ==> Step(c, states[i], picks[i], states[i + 1])
  }

  lemma {:induction false} RunExtend(c: Config, states: seq<State>, picks: seq<Node>, n: Node, s': State)
    requires IsRun(c, states, picks)
    ensures Step(c, states[|picks|], n, s') ==> IsRun(c, states + [s'], picks + [n])
  {
    hide Step;
    if Step(c, states[|picks|], n, s') {
      var ss, ps := states + [s'], picks + [n];
      forall i | 0 <= i < |ps|
        ensures Step(c, ss[i], ps[i], ss[i + 1])
      {
        if i < |picks| {
          assert Step(c, states[i], picks[i], states[i + 1]);
        }
      }
    }
  }
}
