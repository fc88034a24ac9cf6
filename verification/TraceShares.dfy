// workers/trace/engine.ts:267-300 and taint.ts: how the selected edges of one node share its balance.
module TraceShares {
  import opened Wrappers
  import opened Taints
  import opened TaintAllocation
  import opened Sequences
  import opened Transfers
  import opened TraceModel
  import opened TraceRows
  import opened TraceTaint

  /** A bridge leg takes the whole balance or its own value, whichever is less, under either model. */
  lemma BridgeShareIs(job: Job, taint: Taint, leg: Transfer)
    requires Balance(taint) && PricedUsd(leg) >= 0.0
    ensures BridgeShare(job, taint, leg) == if taint.Inf? || PricedUsd(leg) <= taint.usd then PricedUsd(leg) else taint.usd
  {
    var shares := Allocate(job.model, taint, [leg.usd]);
    AllotsExactly(job.model, taint, [leg.usd]);
    assert [leg.usd][..0] == [] && shares[..0] == [];
    assert Sum(shares) == Sum(shares[..0]) + shares[0];
    assert Total([leg.usd]) == Total([leg.usd][..0]) + OrZero(leg.usd);
  }

  lemma ByTimeOrders()
    ensures TotalPreorder(ByTime)
  {
  }

  /** Where e stands in the order of allotment, and that its share is looked up there. */
  lemma PlaceOf(job: Job, taint: Taint, top: seq<Transfer>, e: Transfer) returns (i: nat)
    requires Balance(taint) && Priced(top) && UniqueKeys(top) && e in top
    ensures i < |InOrderOf(job, top)| && InOrderOf(job, top)[i] == e && Values(InOrderOf(job, top))[i] == e.usd
    ensures ShareOf(Shares(job, taint, top), e) == Allocate(job.model, taint, Values(InOrderOf(job, top)))[i]
  {
    hide Allocate, UniqueKeys;
    var order := InOrderOf(job, top);
    var given := Allocate(job.model, taint, Values(order));
    SortMultiset(top, ByTime);
    assert e in multiset(top) && e in multiset(order);
    i :| 0 <= i < |order| && order[i] == e;
    LastShareWins(order, given, i);
    OrderIsUnique(job, top);
    assert LastOf(order, i) == i;
  }

  lemma OrderIsUnique(job: Job, top: seq<Transfer>)
    requires UniqueKeys(top)
    ensures var order := InOrderOf(job, top);
      forall i, j :: 0 <= i < j < |order| ==> EdgeKeyOf(order[i]) != EdgeKeyOf(order[j])
  {
    SortBag(top, ByTime, EdgeKeyOf);
    UniqueIff(InOrderOf(job, top), EdgeKeyOf);
  }

  /** Under HAIRCUT the edges are tainted in proportion to their values. */
  lemma SharedInProportion(job: Job, taint: Taint, top: seq<Transfer>, e: Transfer, f: Transfer)
    requires job.model == HAIRCUT && Balance(taint) && Priced(top) && UniqueKeys(top) && e in top && f in top
    ensures ShareOf(Shares(job, taint, top), e) * PricedUsd(f) == ShareOf(Shares(job, taint, top), f) * PricedUsd(e)
  {
    hide Haircut;
    var i := PlaceOf(job, taint, top, e);
    var j := PlaceOf(job, taint, top, f);
    HaircutIsProportional(taint, Values(InOrderOf(job, top)), i, j);
  }

  /** Under FIFO an edge gets nothing while an older one has not been filled. */
  lemma OldestFirst(job: Job, taint: Taint, top: seq<Transfer>, e: Transfer, f: Transfer)
    requires job.model == FIFO && Balance(taint) && Priced(top) && UniqueKeys(top) && e in top && f in top
    requires e.ts < f.ts && ShareOf(Shares(job, taint, top), e) < PricedUsd(e)
    ensures ShareOf(Shares(job, taint, top), f) == 0.0
  {
    hide Fifo, Shares;
    var order := InOrderOf(job, top);
    var i := PlaceOf(job, taint, top, e);
    var j := PlaceOf(job, taint, top, f);
    SharesNonNegative(job, taint, top);
    ByTimeOrders();
    SortSorts(top, ByTime);
    assert i < j;
    FifoInTurn(taint, Values(order), j);
  }
}
