// workers/trace/engine.ts, runTrace: the loop over a lazy-deletion heap and buffered writes,
// proved to be a run of the argmax steps of TraceModel, and the one TraceLoop computes.
module TraceEngine {
  import opened Wrappers
  import opened Taints
  import opened TaintQueue
  import opened Sequences
  import opened Transfers
  import M = TraceModel
  import opened TraceModel
  import opened TraceRows
  import L = TraceLoop

  datatype Status = QUEUED | RUNNING | COMPLETED | FAILED

  datatype Outcome = Done(terminals: seq<Terminal>, hopsWritten: nat) | Threw

  /** What may throw besides an adapter. */
  datatype Fault =
    | NoFault
    | AtLookup                 // the progress event, or the label lookup
    | AtLeg(leg: nat)          // resolving one bridge leg
    | AtHopEvents              // the events of the rows just buffered
    | AtStore                  // the insert of the buffered rows
    | AtGraph(merged: nat)     // the graph write, after some hops were merged
    | AtStatus                 // marking the job completed
    | AtCompleted              // the completed event

  const FLUSH_AT := 500

  function GraphOf(rows: seq<Row>): (r: seq<GraphHop>)
    ensures |r| == |rows|
  {
    seq(|rows|, i requires 0 <= i < |rows| => GraphHop(rows[i].from, rows[i].edge))
  }

  lemma GraphAppends(a: seq<Row>, b: seq<Row>)
    ensures GraphOf(a + b) == GraphOf(a) + GraphOf(b)
  {
  }

  function MergeHops(graph: map<GraphKey, Transfer>, hops: seq<GraphHop>): map<GraphKey, Transfer> {
    if hops == [] then graph
    else
      var h := hops[|hops| - 1];
      MergeHops(graph, hops[..|hops| - 1])[(h.from, h.edge.to, EdgeKeyOf(h.edge)) := h.edge]
  }

  /** Merging the first k graph hops of some rows merges those rows. */
  lemma {:induction false} MergedRows(graph: map<GraphKey, Transfer>, rows: seq<Row>, k: nat)
    requires k <= |rows|
    ensures MergeHops(graph, GraphOf(rows)[..k]) == MergeAll(graph, rows[..k])
  {
    if k > 0 {
      MergedRows(graph, rows, k - 1);
      assert GraphOf(rows)[..k][..k - 1] == GraphOf(rows)[..k - 1] && rows[..k][..k - 1] == rows[..k - 1];
    }
  }

  lemma {:induction false} CreateManyTwice(stored: map<DbKey, Row>, a: seq<Row>, b: seq<Row>)
    ensures CreateMany(CreateMany(stored, a), b) == CreateMany(stored, a + b)
  {
    if b == [] {
      assert a + b == a;
    } else {
      assert (a + b)[..|a + b| - 1] == a + b[..|b| - 1];
      CreateManyTwice(stored, a, b[..|b| - 1]);
    }
  }

  /** Both databases after some buffered rows were inserted and the first `done` of them merged. */
  lemma FlushedTo(stored: map<DbKey, Row>, graph: map<GraphKey, Transfer>, written: seq<Row>, buffer: seq<Row>, done: nat)
    requires done <= |buffer|
    ensures CreateMany(CreateMany(stored, written), buffer) == CreateMany(stored, written + buffer)
    ensures MergeHops(MergeAll(graph, written), GraphOf(buffer)[..done]) == MergeAll(graph, written + buffer[..done])
    ensures written + buffer[..done] <= written + buffer && (done == |buffer| ==> written + buffer[..done] == written + buffer)
  {
    hide CreateMany, MergeAll, MergeHops, GraphOf;
    CreateManyTwice(stored, written, buffer);
    MergedRows(MergeAll(graph, written), buffer, done);
    MergeAllTwice(graph, written, buffer[..done]);
    assert done == |buffer| ==> buffer[..done] == buffer;
  }

  lemma NothingWritten(stored: map<DbKey, Row>, graph: map<GraphKey, Transfer>)
    ensures GraphOf([]) == [] && CreateMany(stored, []) == stored && MergeAll(graph, []) == graph
  {
  }

  lemma {:induction false} RowsPrefix(rows: seq<Row>, from: Node, edges: seq<Transfer>, k: nat)
    requires k <= |edges|
    ensures WithRows(rows, from, edges[..k]) <= WithRows(rows, from, edges)
    decreases |edges|
  {
    if k == |edges| {
      assert edges[..k] == edges;
    } else {
      var last := |edges| - 1;
      RowsPrefix(rows, from, edges[..last], k);
      assert edges[..last][..k] == edges[..k];
    }
  }

  /** One attempt of a trace job, against the tables earlier attempts left. */
  class TraceRun {
    const c: Config
    var status: Status
    /** The Hop rows of this trace, and the transfers merged into the graph database. */
    var stored: map<DbKey, Row>
    var graph: map<GraphKey, Transfer>

    // the walk's own state
    var heap: TaintPriorityQueue<Node>
    var nodeMeta: map<Node, Meta>
    var expanded: set<Node>
    var terminals: seq<Terminal>
    var hopBuffer: seq<Row>
    var graphBuffer: seq<GraphHop>
    var hopsWritten: nat
    var hopNoCounter: nat
    var nodesProcessed: nat

    /** The rows handed to the two databases by this attempt, and what they held before it. */
    ghost var written: seq<Row>
    ghost var merged: seq<Row>
    ghost var stored0: map<DbKey, Row>
    ghost var graph0: map<GraphKey, Transfer>

    constructor (c: Config, status: Status, stored: map<DbKey, Row>, graph: map<GraphKey, Transfer>)
      ensures this.c == c && this.status == status && this.stored == stored && this.graph == graph
    {
      this.c := c;
      this.status := status;
      this.stored, this.graph := stored, graph;
      heap := new TaintPriorityQueue();
    }

    ghost function Abs(): State
      reads this`nodeMeta, this`expanded, this`terminals, this`written, this`hopBuffer
    {
      State(nodeMeta, expanded, terminals, written + hopBuffer)
    }

    ghost function Here(): L.Loop
      reads this`nodeMeta, this`expanded, this`terminals, this`written, this`hopBuffer, this`heap, this`nodesProcessed, heap
    {
      L.Loop(Abs(), heap.heap, nodesProcessed)
    }

    /** What the databases hold beyond their old contents; the graph never runs ahead of the table. */
    ghost predicate Ledger()
      reads this`stored, this`stored0, this`graph, this`graph0, this`written, this`merged
    {
      && stored == CreateMany(stored0, written)
      && graph == MergeAll(graph0, merged)
      && merged <= written
    }

    /** Counters, buffers and both databases agree on the rows produced so far. */
    ghost predicate Books()
      reads this`hopNoCounter, this`hopsWritten, this`stored, this`stored0, this`graph, this`graph0,
            this`graphBuffer, this`hopBuffer, this`written, this`merged
    {
      && Ledger() && merged == written
      && hopNoCounter == |written + hopBuffer|
      && hopsWritten == |written|
      && graphBuffer == GraphOf(hopBuffer)
    }

    /** Every frontier node has an entry with its current taint; other entries are stale. */
    ghost predicate Mirrors()
      reads this`heap, this`nodeMeta, this`expanded, heap
    {
      && heap.Valid()
      && (forall n :: n in nodeMeta && n !in expanded ==> HeapEntry(n, nodeMeta[n].taint) in heap.heap)
      && (forall e :: e in heap.heap ==> e.key in nodeMeta)
    }

    ghost predicate Valid()
      reads this, heap
    {
      Books() && Mirrors()
    }

    lemma EmptyHeapMeansDone()
      requires Mirrors() && heap.heap == []
      ensures Frontier(Abs()) == {}
    {
    }

    /** False when a write threw: the table may then be ahead of the graph. */
    method Flush(fault: Fault) returns (ok: bool)
      requires Books()
      modifies this`stored, this`graph, this`hopsWritten, this`written, this`merged, this`hopBuffer, this`graphBuffer
      ensures ok ==> Books() && Abs() == old(Abs()) && hopBuffer == [] && written == old(written + hopBuffer)
      ensures !ok ==> Ledger() && written <= old(written + hopBuffer) && (fault.AtStore? || fault.AtGraph?)
      ensures fault.NoFault? ==> ok
    {
      hide CreateMany, GraphOf, MergeAll, MergeHops;
      if |hopBuffer| == 0 {
        assert written + hopBuffer == written;
        return true;
      }
      if fault.AtStore? {
        return false;
      }
      var done := if fault.AtGraph? && fault.merged < |graphBuffer| then fault.merged else |graphBuffer|;
      FlushedTo(stored0, graph0, written, hopBuffer, done);
      stored := CreateMany(stored, hopBuffer);
      graph := MergeHops(graph, graphBuffer[..done]);
      written, merged := written + hopBuffer, written + hopBuffer[..done];
      if fault.AtGraph? {
        return false;
      }
      hopsWritten := hopsWritten + |hopBuffer|;
      hopBuffer, graphBuffer := [], [];
      assert written + hopBuffer == written;
      NothingWritten(stored, graph);
      ok := true;
    }

    method PersistEdges(from: Node, edges: seq<Transfer>)
      requires Books()
      modifies this`hopNoCounter, this`hopBuffer, this`graphBuffer
      ensures Books()
      ensures Abs() == old(Abs()).(rows := WithRows(old(Abs()).rows, from, edges))
    {
      hide Ledger;
      ghost var rows := Abs().rows;
      for i := 0 to |edges|
        invariant Books()
        invariant written + hopBuffer == WithRows(rows, from, edges[..i])
      {
        var e := edges[i];
        ghost var before := written + hopBuffer;
        GraphAppends(hopBuffer, [Row(hopNoCounter + 1, from, e)]);
        hopNoCounter := hopNoCounter + 1;
        hopBuffer := hopBuffer + [Row(hopNoCounter, from, e)];
        graphBuffer := graphBuffer + [GraphHop(from, e)];
        assert edges[..i + 1][..i] == edges[..i];
        assert written + hopBuffer == before + [Row(hopNoCounter, from, e)];
      }
      assert edges[..|edges|] == edges;
    }

    method PushChild(child: Node, share: real, hop: nat, ts: int)
      requires Mirrors()
      modifies this`nodeMeta, heap
      ensures Mirrors()
      ensures Abs() == M.PushChild(old(Abs()), child, share, hop, ts)
      ensures heap.heap == L.PushAll(old(heap.heap), L.ChildPush(old(Abs()), child, share, hop, ts))
    {
      if child in expanded {
        return;
      }
      var arrival := Arrive(nodeMeta, child, share, hop, ts);
      L.PushAllOne(heap.heap, HeapEntry(child, arrival.taint));
      nodeMeta := nodeMeta[child := arrival];
      heap.Push(child, arrival.taint);
    }

    /** throws: the resolver does, after the leg's row was buffered. */
    method CrossBridge(n: Node, m: Meta, leg: Transfer, throws: bool) returns (ok: bool)
      requires Valid()
      modifies this`nodeMeta, this`terminals, this`hopNoCounter, this`hopBuffer, this`graphBuffer, heap
      ensures Valid() && ok == !throws
      ensures ok ==> Abs() == M.CrossBridge(c, old(Abs()), n, m, leg)
      ensures ok ==> heap.heap == L.PushAll(old(heap.heap), L.LegPush(c, old(Abs()), n, m, leg))
      ensures !ok ==> Abs().rows == WithRows(old(Abs()).rows, n, [leg])
    {
      hide Ledger;
      PersistEdges(n, [leg]);
      if throws {
        return false;
      }
      var bridge := Node(n.chain, leg.to);
      var resolved := c.resolveBridge(bridge, leg);
      if resolved.Some? {
        var share := BridgeShare(c.job, m.taint, leg);
        if share > 0.0 {
          PushChild(resolved.value, share, m.hop + 1, leg.ts);
        }
      } else {
        terminals := terminals + [Terminal(bridge, BridgeUnresolved)];
      }
      ok := true;
    }

    method CrossBridges(n: Node, m: Meta, legs: seq<Transfer>, fault: Fault) returns (ok: bool)
      requires Valid()
      modifies this`nodeMeta, this`terminals, this`hopNoCounter, this`hopBuffer, this`graphBuffer, heap
      ensures Valid() && (ok <==> !(fault.AtLeg? && fault.leg < |legs|))
      ensures ok ==> Abs() == M.CrossBridges(c, old(Abs()), n, m, legs)
      ensures ok ==> heap.heap == L.PushAll(old(heap.heap), L.LegPushes(c, old(Abs()), n, m, legs))
      ensures !ok ==> Abs().rows <= WithRows(old(Abs()).rows, n, legs)
    {
      hide Books, Mirrors, M.CrossBridge, L.LegPush, L.PushAll, M.CrossBridges, L.LegPushes;
      ghost var s := Abs();
      NoLegs(s, n, m, heap.heap);
      for i := 0 to |legs|
        invariant Valid() && !(fault.AtLeg? && fault.leg < i)
        invariant Abs() == M.CrossBridges(c, s, n, m, legs[..i])
        invariant heap.heap == L.PushAll(old(heap.heap), L.LegPushes(c, s, n, m, legs[..i]))
      {
        OneLegMore(s, n, m, legs, i, old(heap.heap));
        ok := CrossBridge(n, m, legs[i], fault == AtLeg(i));
        if !ok {
          CrossBridgesRows(c, s, n, m, legs[..i]);
          WithRowsAppends(s.rows, n, legs[..i], [legs[i]]);
          assert legs[..i + 1] == legs[..i] + [legs[i]];
          RowsPrefix(s.rows, n, legs, i + 1);
          return;
        }
      }
      assert legs[..|legs|] == legs;
      ok := true;
    }

    lemma NoLegs(s: State, n: Node, m: Meta, h: L.Heap)
      ensures M.CrossBridges(c, s, n, m, []) == s && L.PushAll(h, L.LegPushes(c, s, n, m, [])) == h
    {
    }

    lemma OneLegMore(s: State, n: Node, m: Meta, legs: seq<Transfer>, i: nat, h: L.Heap)
      requires i < |legs|
      ensures M.CrossBridges(c, s, n, m, legs[..i + 1]) == M.CrossBridge(c, M.CrossBridges(c, s, n, m, legs[..i]), n, m, legs[i])
      ensures L.PushAll(h, L.LegPushes(c, s, n, m, legs[..i + 1])) ==
        L.PushAll(L.PushAll(h, L.LegPushes(c, s, n, m, legs[..i])), L.LegPush(c, M.CrossBridges(c, s, n, m, legs[..i]), n, m, legs[i]))
    {
      assert legs[..i + 1][..i] == legs[..i];
      L.PushAllTwice(h, L.LegPushes(c, s, n, m, legs[..i]), L.LegPush(c, M.CrossBridges(c, s, n, m, legs[..i]), n, m, legs[i]));
    }

    method PushTop(n: Node, m: Meta, shares: map<EdgeKey, real>, top: seq<Transfer>)
      requires Mirrors()
      modifies this`nodeMeta, heap
      ensures Mirrors()
      ensures Abs() == M.PushTop(old(Abs()), n, m, shares, top)
      ensures heap.heap == L.PushAll(old(heap.heap), L.TopPushes(old(Abs()), n, m, shares, top))
    {
      hide Mirrors, L.PushAll, L.ChildPush, M.PushTop, L.TopPushes, M.PushChild;
      ghost var s := Abs();
      NoTop(s, n, m, shares, heap.heap);
      for i := 0 to |top|
        invariant Mirrors()
        invariant Abs() == M.PushTop(s, n, m, shares, top[..i])
        invariant heap.heap == L.PushAll(old(heap.heap), L.TopPushes(s, n, m, shares, top[..i]))
      {
        var edge := top[i];
        OneEdgeMore(s, n, m, shares, top, i, old(heap.heap));
        var share := ShareOf(shares, edge);
        if share > 0.0 {
          PushChild(Node(n.chain, edge.to), share, m.hop + 1, edge.ts);
        } else {
          L.PushAllOne(heap.heap, HeapEntry(n, m.taint));
        }
      }
      assert top[..|top|] == top;
    }

    lemma NoTop(s: State, n: Node, m: Meta, shares: map<EdgeKey, real>, h: L.Heap)
      ensures M.PushTop(s, n, m, shares, []) == s && L.PushAll(h, L.TopPushes(s, n, m, shares, [])) == h
    {
    }

    lemma OneEdgeMore(s: State, n: Node, m: Meta, shares: map<EdgeKey, real>, top: seq<Transfer>, i: nat, h: L.Heap)
      requires i < |top|
      ensures M.PushTop(s, n, m, shares, top[..i + 1]) == M.PushEdge(M.PushTop(s, n, m, shares, top[..i]), n, m, shares, top[i])
      ensures L.PushAll(h, L.TopPushes(s, n, m, shares, top[..i + 1])) ==
        L.PushAll(L.PushAll(h, L.TopPushes(s, n, m, shares, top[..i])), L.EdgePush(M.PushTop(s, n, m, shares, top[..i]), n, m, shares, top[i]))
    {
      assert top[..i + 1][..i] == top[..i];
      L.PushAllTwice(h, L.TopPushes(s, n, m, shares, top[..i]), L.EdgePush(M.PushTop(s, n, m, shares, top[..i]), n, m, shares, top[i]));
    }

    /** Pops one entry. None: it was stale. Otherwise the popped node had the greatest taint of the
        whole frontier, and is now marked expanded. */
    method TakeNext() returns (n: Option<Node>)
      requires Valid() && |heap.heap| > 0
      modifies this`expanded, this`nodesProcessed, heap
      ensures Valid() && heap.heap == Popped(old(heap.heap))
      ensures n.None? <==> L.Stale(old(Here()))
      ensures n.None? ==> Abs() == old(Abs()) && nodesProcessed == old(nodesProcessed)
      ensures n.Some? ==> n.value == old(heap.heap)[0].key
      ensures n.Some? ==> IsGreatest(old(Abs()), n.value) && Abs() == Mark(old(Abs()), n.value)
      ensures n.Some? ==> nodesProcessed == old(nodesProcessed) + 1
    {
      hide Popped, Books, GraphOf;
      ghost var before := heap.heap;
      var popped := heap.Pop();
      var entry := popped.value;
      var meta := nodeMeta[entry.key];
      if meta.taint != entry.taint || entry.key in expanded {
        return None;
      }
      assert forall m :: m in Frontier(Abs()) ==> HeapEntry(m, nodeMeta[m].taint) in before;
      expanded := expanded + {entry.key};
      nodesProcessed := nodesProcessed + 1;
      return Some(entry.key);
    }

    /** A node with too many counterparties: recorded, its largest edges shown, none followed. */
    method ShowHighDegree(n: Node, shown: seq<Transfer>, fault: Fault) returns (ok: bool)
      requires Valid()
      modifies this`terminals, this`hopNoCounter, this`hopBuffer, this`graphBuffer,
               this`stored, this`graph, this`hopsWritten, this`written, this`merged
      ensures ok ==> Valid()
      ensures ok ==> Abs() == old(Abs()).(terminals := old(Abs()).terminals + [Terminal(n, HighDegreeService)],
                                          rows := WithRows(old(Abs()).rows, n, shown))
      ensures !ok ==> Ledger() && written <= WithRows(old(Abs()).rows, n, shown) && !fault.NoFault?
    {
      hide Books, Ledger;
      terminals := terminals + [Terminal(n, HighDegreeService)];
      PersistEdges(n, shown);
      ok := FlushWhenFull(fault);
    }

    method FlushWhenFull(fault: Fault) returns (ok: bool)
      requires Books()
      modifies this`stored, this`graph, this`hopsWritten, this`written, this`merged, this`hopBuffer, this`graphBuffer
      ensures ok ==> Books() && Abs() == old(Abs())
      ensures !ok ==> Ledger() && written <= old(written + hopBuffer) && !fault.NoFault?
    {
      ok := true;
      if |hopBuffer| >= FLUSH_AT {
        ok := Flush(fault);
      }
    }

    /** Bridge legs first, then the top edges with their shares. */
    method FollowOutflows(n: Node, m: Meta, legs: seq<Transfer>, top: seq<Transfer>, fault: Fault) returns (ok: bool)
      requires Valid()
      modifies this`nodeMeta, this`terminals, this`hopNoCounter, this`hopBuffer, this`graphBuffer,
               this`stored, this`graph, this`hopsWritten, this`written, this`merged, heap
      ensures ok ==> Valid()
      ensures ok ==> Abs() == FanOutStep(c, old(Abs()), n, m, legs, top)
      ensures ok ==> heap.heap == L.PushAll(old(heap.heap), L.FanOutPushes(c, old(Abs()), n, m, legs, top))
      ensures !ok ==> Ledger() && written <= WithRows(WithRows(old(Abs()).rows, n, legs), n, top) && !fault.NoFault?
    {
      hide Books, Ledger, Mirrors, L.PushAll, M.CrossBridges, M.PushTop, L.LegPushes, L.TopPushes, Shares, WithRows;
      ghost var s, h := Abs(), heap.heap;
      CrossBridgesRows(c, s, n, m, legs);
      RowsPrefixOfBoth(s.rows, n, legs, top);
      ok := CrossBridges(n, m, legs, fault);
      if !ok {
        LedgerOfBooks();
        return;
      }
      var shares := Shares(c.job, m.taint, top);
      PersistEdges(n, top);
      if fault.AtHopEvents? {
        LedgerOfBooks();
        return false;
      }
      ghost var persisted := Abs();
      PushTop(n, m, shares, top);
      PushTopFrame(persisted, n, m, shares, top);
      L.PushAllTwice(h, L.LegPushes(c, s, n, m, legs), L.TopPushes(persisted, n, m, shares, top));
      ok := FlushWhenFull(fault);
    }

    lemma RowsPrefixOfBoth(rows: seq<Row>, n: Node, legs: seq<Transfer>, top: seq<Transfer>)
      ensures WithRows(rows, n, legs) <= WithRows(WithRows(rows, n, legs), n, top)
    {
      RowsPrefix(WithRows(rows, n, legs), n, top, 0);
      assert top[..0] == [];
    }

    lemma LedgerOfBooks()
      requires Books()
      ensures Ledger() && written <= Abs().rows
    {
    }

    /** The body of the loop for a node that was just marked expanded; false when something threw. */
    method ProcessNode(n: Node, m: Meta, fault: Fault, ghost s: State) returns (ok: bool)
      requires Valid()
      requires n in s.nodes && s.nodes[n] == m && Abs() == Mark(s, n)
      modifies this`nodeMeta, this`terminals, this`hopNoCounter, this`hopBuffer, this`graphBuffer,
               this`stored, this`graph, this`hopsWritten, this`written, this`merged, heap
      ensures ok ==> Valid() && !PlanOf(c, n, m).Fails? && Abs() == Expand(c, s, n)
      ensures ok ==> heap.heap == L.PushAll(old(heap.heap), L.ExpandPushes(c, s, n))
      ensures !ok ==> Ledger() && written <= Expand(c, s, n).rows
      ensures !ok && fault.NoFault? ==> PlanOf(c, n, m).Fails?
    {
      hide PlanOf, Books, Ledger, Mirrors, WithRows, FanOutStep, L.FanOutPushes;
      LedgerOfBooks();
      ExpandRows(c, s, n);
      NeverShorter(s.rows, n, PlanRows(PlanOf(c, n, m)));
      if fault.AtLookup? {
        return false;
      }
      ok := true;
      var plan := PlanOf(c, n, m);
      match plan {
      case Fails =>
        return false;
      case Stop(reason) =>
        terminals := terminals + [Terminal(n, reason)];
        NoPushes(heap.heap);
      case HighDegree(shown) =>
        NoPushes(heap.heap);
        ok := ShowHighDegree(n, shown, fault);
      case FanOut(bridgeLegs, top) =>
        WithRowsAppends(s.rows, n, bridgeLegs, top);
        ok := FollowOutflows(n, m, bridgeLegs, top, fault);
      }
    }

    lemma NeverShorter(rows: seq<Row>, n: Node, edges: seq<Transfer>)
      ensures rows <= WithRows(rows, n, edges)
    {
      RowsPrefix(rows, n, edges, 0);
      assert edges[..0] == [];
    }

    lemma NoPushes(h: L.Heap)
      ensures L.PushAll(h, []) == h
    {
    }

    /** The loop; false when something threw, which leaves the states before the failed step. */
    method Walk(faults: nat -> Fault) returns (ok: bool, ghost states: seq<State>, ghost picks: seq<Node>)
      requires Valid() && Here() == L.Start(c)
      modifies this`nodeMeta, this`expanded, this`terminals, this`hopNoCounter, this`hopBuffer, this`graphBuffer,
               this`stored, this`graph, this`hopsWritten, this`written, this`merged, this`nodesProcessed, heap
      ensures IsRun(c, states, picks) && (c.maxNodes >= 0 ==> |picks| <= c.maxNodes)
      ensures Ledger() && written <= L.RowsOf(c)
      ensures ok ==> Valid() && Abs() == states[|picks|] && (Frontier(Abs()) == {} || |picks| >= c.maxNodes)
      ensures ok ==> L.Completes(c) && Abs() == L.Walked(c, L.Start(c)).s
      ensures !ok && (forall k :: faults(k).NoFault?) ==> !L.Completes(c)
    {
      hide Books, Mirrors, Ledger, Expand, PlanOf, IsGreatest, L.Next, L.Walked, L.Start, L.ExpandPushes, L.PushAll, Popped;
      states, picks := [Abs()], [];
      StartsRun(Abs());
      while |heap.heap| > 0 && nodesProcessed < c.maxNodes
        invariant Valid()
        invariant IsRun(c, states, picks) && Abs() == states[|picks|]
        invariant nodesProcessed == |picks| && (c.maxNodes >= 0 ==> |picks| <= c.maxNodes)
        invariant L.Walked(c, Here()) == L.Walked(c, L.Start(c))
        decreases c.maxNodes - nodesProcessed, |heap.heap|
      {
        ghost var s, l := Abs(), Here();
        LoopStep(l);
        LedgerOfBooks();
        var next := TakeNext();
        if next.None? {
          continue;
        }
        var n := next.value;
        GreatestIsKnown(s, n);
        ok := ProcessNode(n, nodeMeta[n], faults(nodesProcessed - 1), s);
        if !ok {
          return;
        }
        RunExtend(c, states, picks, n, Abs());
        states, picks := states + [Abs()], picks + [n];
      }
      Rests(Here());
      LedgerOfBooks();
      L.RowsOnlyGrow(c, Here());
      if |heap.heap| == 0 {
        EmptyHeapMeansDone();
      }
      ok := true;
    }

    lemma StartsRun(s: State)
      requires s == L.Start(c).s
      ensures IsRun(c, [s], []) && L.Start(c).processed == 0
    {
    }

    lemma Rests(l: L.Loop)
      requires !L.Going(c, l)
      ensures L.Walked(c, l) == l && !L.Throws(c, l)
    {
    }

    /** What one round of the loop is, and where a failing one leaves the rows. */
    lemma LoopStep(l: L.Loop)
      requires L.Going(c, l) && L.Walked(c, l) == L.Walked(c, L.Start(c))
      ensures !L.Throws(c, l) ==> L.Walked(c, L.Next(c, l)) == L.Walked(c, L.Start(c))
      ensures L.Stale(l) ==> !L.Throws(c, l) && L.Next(c, l) == L.Loop(l.s, Popped(l.heap), l.processed)
      ensures !L.Stale(l) ==>
        var n := l.heap[0].key;
        && (L.Throws(c, l) <==> PlanOf(c, n, l.s.nodes[n]).Fails?)
        && L.Next(c, l) == L.Loop(Expand(c, l.s, n), L.PushAll(Popped(l.heap), L.ExpandPushes(c, l.s, n)), l.processed + 1)
        && Expand(c, l.s, n).rows <= L.RowsOf(c)
      ensures L.Throws(c, l) ==> !L.Completes(c)
    {
      hide Expand, PlanOf, L.ExpandPushes, L.PushAll, Popped, L.Start;
      L.Shrinks(c, l);
      if !L.Stale(l) {
        var n := l.heap[0].key;
        if L.Throws(c, l) {
          FailsWithoutRows(l.s, n);
        } else {
          L.RowsOnlyGrow(c, L.Next(c, l));
        }
      }
    }

    lemma FailsWithoutRows(s: State, n: Node)
      requires n in s.nodes && PlanOf(c, n, s.nodes[n]).Fails?
      ensures Expand(c, s, n).rows == s.rows
    {
    }

    lemma GreatestIsKnown(s: State, n: Node)
      requires IsGreatest(s, n)
      ensures n in s.nodes
    {
    }

    /** The walk and its last flush, from a fresh start; false when something threw. */
    method WalkAndFlush(faults: nat -> Fault, atEnd: Fault) returns (ok: bool, ghost states: seq<State>, ghost picks: seq<Node>)
      modifies this`heap, this`nodeMeta, this`expanded, this`terminals, this`hopNoCounter, this`hopBuffer, this`graphBuffer, this`stored,
               this`graph, this`hopsWritten, this`written, this`merged, this`nodesProcessed, this`stored0, this`graph0
      ensures IsRun(c, states, picks) && (c.maxNodes >= 0 ==> |picks| <= c.maxNodes)
      ensures merged <= written <= L.RowsOf(c) && stored == CreateMany(old(stored), written) && graph == MergeAll(old(graph), merged)
      ensures ok ==>
        && L.Completes(c) && merged == written == L.RowsOf(c) && hopsWritten == |written|
        && states[|picks|] == L.Walked(c, L.Start(c)).s && terminals == states[|picks|].terminals
        && (Frontier(states[|picks|]) == {} || |picks| >= c.maxNodes)
      ensures (forall k :: faults(k).NoFault?) && atEnd.NoFault? ==> (ok <==> L.Completes(c))
    {
      hide CreateMany, GraphOf, MergeAll, Mirrors, IsRun, L.RowsOf, L.Completes, L.Walked, L.Start, Frontier;
      StartWalk();
      ok, states, picks := Walk(faults);
      if ok {
        RowsAreAll();
        ok := Flush(atEnd);
      }
    }

    /**
      * One attempt of the job. faults says what throws while the k-th node is processed, atEnd what throws after the
      * loop. The ghost results name the run of argmax steps it performed.
      */
    method RunTrace(isFinalAttempt: bool, faults: nat -> Fault, atEnd: Fault)
      returns (outcome: Outcome, ghost states: seq<State>, ghost picks: seq<Node>)
      modifies this
      ensures old(status) == COMPLETED ==>
        outcome == Done([], |old(stored)|) && stored == old(stored) && graph == old(graph) && status == COMPLETED
      ensures old(status) != COMPLETED ==>
        IsRun(c, states, picks) && (c.maxNodes >= 0 ==> |picks| <= c.maxNodes)
      // however it ends, each database got a first part of the rows TraceLoop says it produces
      ensures old(status) != COMPLETED ==>
        merged <= written <= L.RowsOf(c) && stored == CreateMany(old(stored), written) && graph == MergeAll(old(graph), merged)
      ensures old(status) != COMPLETED && outcome.Done? ==>
        && L.Completes(c) && status == COMPLETED && merged == written == L.RowsOf(c)
        && states[|picks|] == L.Walked(c, L.Start(c)).s
        && outcome == Done(states[|picks|].terminals, |written|)
        && (Frontier(states[|picks|]) == {} || |picks| >= c.maxNodes)
      ensures old(status) != COMPLETED && outcome.Threw? && isFinalAttempt ==> status == FAILED
      ensures old(status) != COMPLETED && outcome.Threw? && !isFinalAttempt ==>
        status == RUNNING || (status == COMPLETED && atEnd.AtCompleted? && merged == L.RowsOf(c))
      ensures old(status) != COMPLETED && (forall k :: faults(k).NoFault?) && atEnd.NoFault? ==>
        (outcome.Done? <==> L.Completes(c))
    {
      hide CreateMany, MergeAll, IsRun, L.RowsOf, L.Completes, L.Walked, L.Start, Frontier;
      states, picks := [], [];
      if status == COMPLETED {
        return Done([], |stored|), states, picks;
      }
      status := RUNNING;
      var ok;
      ok, states, picks := WalkAndFlush(faults, atEnd);
      if ok && !atEnd.AtStatus? {
        status := COMPLETED;
        if !atEnd.AtCompleted? {
          return Done(terminals, hopsWritten), states, picks;
        }
      }
      if isFinalAttempt {
        status := FAILED;
      }
      outcome := Threw;
    }

    lemma RowsAreAll()
      requires Abs() == L.Walked(c, L.Start(c)).s
      ensures written + hopBuffer == L.RowsOf(c)
    {
    }

    /** Fresh local state: the seed alone on the frontier, nothing buffered. */
    method StartWalk()
      modifies this`heap, this`nodeMeta, this`expanded, this`terminals, this`hopBuffer, this`graphBuffer, this`hopsWritten,
               this`hopNoCounter, this`nodesProcessed, this`written, this`merged, this`stored0, this`graph0
      ensures Valid() && fresh(heap) && Here() == L.Start(c)
      ensures stored0 == stored && graph0 == graph
    {
      hide Books, Mirrors;
      StartBooks();
      StartFrontier();
    }

    method StartBooks()
      modifies this`hopBuffer, this`graphBuffer, this`hopsWritten, this`hopNoCounter, this`written, this`merged, this`stored0, this`graph0
      ensures Books() && written + hopBuffer == [] && stored0 == stored && graph0 == graph
    {
      hide GraphOf, CreateMany, MergeAll;
      hopBuffer, graphBuffer, hopsWritten, hopNoCounter := [], [], 0, 0;
      written, merged, stored0, graph0 := [], [], stored, graph;
      NothingWritten(stored, graph);
    }

    method StartFrontier()
      modifies this`heap, this`nodeMeta, this`expanded, this`terminals, this`nodesProcessed
      ensures Mirrors() && fresh(heap) && nodesProcessed == 0
      ensures nodeMeta == Init(c).nodes && expanded == {} && terminals == [] && heap.heap == L.Start(c).heap
    {
      var taint := if c.job.reportedAmount.None? then Inf else Fin(c.job.reportedAmount.value);
      heap := Seeded(c.job.seed, taint);
      nodeMeta := map[c.job.seed := Meta(taint, 0, c.job.createdAt)];
      expanded, terminals, nodesProcessed := {}, [], 0;
    }

    static method Seeded(seed: Node, taint: Taint) returns (queue: TaintPriorityQueue<Node>)
      ensures fresh(queue) && queue.Valid() && queue.heap == [HeapEntry(seed, taint)]
    {
      queue := new TaintPriorityQueue();
      queue.Push(seed, taint);
    }
  }
}
