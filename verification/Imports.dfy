// apps/api/src/intake/service.ts, ingest with its retry loop: a batch that other imports may overtake between the moment
// it reads the store and the moment its transaction commits.
module Imports {
  import opened IntakeLinking
  import opened IntakeTraces
  import opened Intake
  import opened Sequences
  import opened Wrappers

  const MAX_RETRIES := 2

  // ---- what other imports do to the store ----

  /** Rows are only added, and the keys of the database hold. */
  ghost predicate Later(s: Store, t: Store) {
    && Consistent(t)
    && (forall c :: c in s.cases ==> c in t.cases && t.cases[c] == s.cases[c])
    && (forall a :: a in s.complaints ==> a in t.complaints && t.complaints[a] == s.complaints[a])
    && s.links <= t.links && s.traces <= t.traces
  }

  /** The store attempt k reads, and the store its transaction meets. */
  datatype Rivals = Rivals(seen: nat -> Store, met: nat -> Store)

  /** Other imports come before and between, and none draws the ids this one draws. */
  ghost predicate Rely(s: Store, r: Rivals, newCase: nat -> string, newTrace: nat -> string) {
    && Later(s, r.seen(0))
    && forall k :: RelyAt(r, newCase, newTrace, k)
  }

  ghost predicate RelyAt(r: Rivals, newCase: nat -> string, newTrace: nat -> string, k: nat) {
    && Consistent(r.seen(k)) && Later(r.seen(k), r.met(k)) && Later(r.met(k), r.seen(k + 1))
    && NewCaseIds(r.met(k).cases, newCase) && NewTraceIds(r.met(k).traces, newTrace)
  }

  /** Some complaint's acknowledgement number is taken: the unique key makes the transaction fail. */
  predicate Clashes(complaints: map<string, Option<string>>, items: seq<Item>) {
    exists n :: 0 <= n < |items| && items[n].ackNo in complaints
  }

  /** Another import stored one of the file's numbers between attempt k's reading and its commit. */
  ghost predicate Overtaken(r: Rivals, inputs: seq<Input>, k: nat) {
    exists i: nat :: FirstOfFile(inputs, i) && inputs[i].value.ackNo !in r.seen(k).complaints && inputs[i].value.ackNo in r.met(k).complaints
  }

  lemma ClashOvertakes(r: Rivals, inputs: seq<Input>, statuses: seq<Status>, pending: seq<nat>, dupCases: set<string>, k: nat)
    requires Sorted(r.seen(k).complaints, inputs, statuses, pending, dupCases)
    requires forall n :: 0 <= n < |pending| ==> pending[n] < |inputs| && inputs[pending[n]].Some?
    requires Clashes(r.met(k).complaints, ItemsAt(inputs, pending))
    ensures Overtaken(r, inputs, k)
  {
    hide SeenEarlier;
    var n :| 0 <= n < |pending| && ItemsAt(inputs, pending)[n].ackNo in r.met(k).complaints;
    assert pending[n] in pending;
    assert FirstOfFile(inputs, pending[n]);
  }

  // ---- sorting the rows again ----

  /** What a retry finds stored by now is a repeat too, and nothing else changes. */
  lemma SortedAgain(before: map<string, Option<string>>, now: map<string, Option<string>>, inputs: seq<Input>,
                    statuses0: seq<Status>, pending0: seq<nat>, dupCases0: set<string>,
                    statuses: seq<Status>, pending: seq<nat>, more: set<string>)
    requires forall a :: a in before ==> a in now && now[a] == before[a]
    requires Sorted(before, inputs, statuses0, pending0, dupCases0)
    requires Filtered(now, inputs, statuses0, pending0, |pending0|, statuses, pending, more)
    ensures Sorted(now, inputs, statuses, pending, dupCases0 + more)
  {
    hide Increasing, SeenEarlier;
    assert pending0[..|pending0|] == pending0;
    forall c
      ensures c in dupCases0 + more <==> exists i: nat :: i < |inputs| && DupOf(now, inputs, i, c)
    {
      if i: nat :| i < |inputs| && DupOf(now, inputs, i, c) {
        assert i in pending0 || DupOf(before, inputs, i, c);
      }
      if c in dupCases0 {
        var i: nat :| i < |inputs| && DupOf(before, inputs, i, c);
        assert DupOf(now, inputs, i, c);
      }
    }
  }

  // ---- twins ----

  /** The batch asks for a trace of this key that was not stored when it read. */
  ghost predicate Missed(read: seq<Trace>, keys: seq<Key>, k: Key) {
    k in keys && !HasKey(read, k)
  }

  /** Since this batch read, another one stored no trace that this one makes. */
  ghost predicate NoRivalTwin(read: Store, met: Store, keys: seq<Key>)
    requires |read.traces| <= |met.traces|
  {
    forall t :: t in met.traces[|read.traces|..] ==> !Missed(read.traces, keys, KeyOf(t))
  }

  lemma AddedIsMissed(read: Store, joined: set<string>, newCases: set<string>, existing: map<Key, Trace>,
                      uuid: nat -> string, plan: Plan, keys: seq<Key>, k: Key)
    requires Indexed(existing, read.traces, joined) && AddedRight(existing, uuid, plan.added, plan.seen)
    requires Consistent(read) && forall c :: c in newCases ==> c !in read.cases
    requires forall t :: t in plan.added ==> t.caseId in joined || t.caseId in newCases
    requires SeenGrows(existing, map[], plan.seen, keys)
    ensures (exists t :: t in plan.added && KeyOf(t) == k) <==> Missed(read.traces, keys, k)
  {
    hide OncePerId;
    if t :| t in plan.added && KeyOf(t) == k {
      var i :| 0 <= i < |plan.added| && plan.added[i] == t;
      assert k in plan.seen && k !in existing;
      forall m | 0 <= m < |read.traces|
        ensures KeyOf(read.traces[m]) != k
      {
        assert read.traces[m] in read.traces;
      }
    }
    forall q | q in existing
      ensures HasKey(read.traces, q)
    {
      var m :| 0 <= m < |read.traces| && read.traces[m] == existing[q];
    }
    if Missed(read.traces, keys, k) {
      assert k in plan.seen;
      var i :| 0 <= i < |plan.added| && KeyOf(plan.added[i]) == k;
      assert plan.added[i] in plan.added;
    }
  }

  /** A batch adds a second trace for a key exactly when another batch got in between with one it had asked for. */
  lemma TwinIff(read: Store, met: Store, joined: set<string>, newCases: set<string>, existing: map<Key, Trace>,
                uuid: nat -> string, plan: Plan, keys: seq<Key>)
    requires Indexed(existing, read.traces, joined) && AddedRight(existing, uuid, plan.added, plan.seen)
    requires Consistent(read) && Later(read, met) && forall c :: c in newCases ==> c !in read.cases
    requires forall t :: t in plan.added ==> t.caseId in joined || t.caseId in newCases
    requires SeenGrows(existing, map[], plan.seen, keys)
    ensures AddsNoTwin(met.traces + plan.added, |met.traces|) <==> NoRivalTwin(read, met, keys)
  {
    hide Indexed, SeenGrows, Consistent, AddedRight, Missed;
    var all, r := met.traces + plan.added, |read.traces|;
    if NoRivalTwin(read, met, keys) {
      hide NoRivalTwin, Later;
      forall i, j | 0 <= i < j < |all| && |met.traces| <= j
        ensures KeyOf(all[i]) != KeyOf(all[j])
      {
        NoTwinAt(read, met, joined, newCases, existing, uuid, plan, keys, i, j);
      }
    } else {
      var t :| t in met.traces[r..] && Missed(read.traces, keys, KeyOf(t));
      AddedIsMissed(read, joined, newCases, existing, uuid, plan, keys, KeyOf(t));
      var u :| u in plan.added && KeyOf(u) == KeyOf(t);
      TwinFound(met.traces, plan.added, t, u);
    }
  }

  lemma TwinFound(stored: seq<Trace>, added: seq<Trace>, t: Trace, u: Trace)
    requires t in stored && u in added && KeyOf(t) == KeyOf(u)
    ensures !AddsNoTwin(stored + added, |stored|)
  {
    var i :| 0 <= i < |stored| && stored[i] == t;
    var j :| 0 <= j < |added| && added[j] == u;
    assert (stored + added)[i] == t && (stored + added)[|stored| + j] == u;
  }

  lemma NoTwinAt(read: Store, met: Store, joined: set<string>, newCases: set<string>, existing: map<Key, Trace>,
                 uuid: nat -> string, plan: Plan, keys: seq<Key>, i: nat, j: nat)
    requires Indexed(existing, read.traces, joined) && AddedRight(existing, uuid, plan.added, plan.seen)
    requires Consistent(read) && Later(read, met) && forall c :: c in newCases ==> c !in read.cases
    requires forall t :: t in plan.added ==> t.caseId in joined || t.caseId in newCases
    requires SeenGrows(existing, map[], plan.seen, keys)
    requires NoRivalTwin(read, met, keys) && i < j < |met.traces + plan.added| && |met.traces| <= j
    ensures KeyOf((met.traces + plan.added)[i]) != KeyOf((met.traces + plan.added)[j])
  {
    hide Indexed, SeenGrows, Consistent;
    var t := plan.added[j - |met.traces|];
    assert t in plan.added;
    AddedIsMissed(read, joined, newCases, existing, uuid, plan, keys, KeyOf(t));
    if i < |read.traces| {
      assert met.traces[i] == read.traces[i];
    } else if i < |met.traces| {
      assert met.traces[|read.traces|..][i - |read.traces|] == met.traces[i];
    }
  }

  // ---- cases ----

  /** Link l, stored by another import since this one read, holds a wallet of complaint n. */
  ghost predicate RivalLink(read: Store, met: Store, items: seq<Item>, n: nat, l: Link)
    requires n < |items| && |read.links| <= |met.links|
  {
    l in met.links[|read.links|..] && Holds(items[n], l.address)
  }

  function RivalMatch(met: Store, l: Link): Match {
    Match(l.caseId, RankOf(met.cases, l.caseId), l.ackNo)
  }

  /** Judged by a store, complaint n is in the earliest case of all complaints that share a wallet with it, or has its own
      exactly when there is none. */
  ghost predicate InEarliest(s: Store, items: seq<Item>, placed: seq<Placement>, n: nat)
    requires n < |items| == |placed|
  {
    var p := placed[n];
    && (p.created <==> forall m :: !Shares(s.links, s.cases, items[..n], placed[..n], items[n], m))
    && (!p.created ==> exists m :: Shares(s.links, s.cases, items[..n], placed[..n], items[n], m) && m.caseId == p.caseId && m.rank == p.rank)
    && (forall m :: Shares(s.links, s.cases, items[..n], placed[..n], items[n], m) ==> p.rank <= m.rank)
  }

  /** And it lists the cases of all of them. */
  ghost predicate ListsAll(s: Store, items: seq<Item>, placed: seq<Placement>, n: nat)
    requires n < |items| == |placed|
  {
    forall m :: Shares(s.links, s.cases, items[..n], placed[..n], items[n], m) ==> m.caseId in placed[n].linked
  }

  lemma StoredSince(read: Store, met: Store, v: string, m: Match)
    requires Consistent(read) && Later(read, met)
    ensures Stored(met.links, met.cases, v, m) <==>
      (Stored(read.links, read.cases, v, m) || exists l :: l in met.links[|read.links|..] && l.address == v && m == RivalMatch(met, l))
  {
    hide Consistent;
    LinksHaveCases(read);
    var l := Link(v, m.ackNo, m.caseId);
    assert met.links == read.links + met.links[|read.links|..];
    if Stored(met.links, met.cases, v, m) && l !in read.links {
      assert l in met.links[|read.links|..] && m == RivalMatch(met, l);
    }
  }

  /** The complaints that share a wallet, by the store the batch met: those by the one it read, and the rivals'. */
  lemma SharesSince(read: Store, met: Store, items: seq<Item>, placed: seq<Placement>, n: nat, m: Match)
    requires Consistent(read) && Later(read, met) && n < |items| == |placed|
    ensures Shares(met.links, met.cases, items[..n], placed[..n], items[n], m)
       <==> Shares(read.links, read.cases, items[..n], placed[..n], items[n], m) || exists l :: RivalLink(read, met, items, n, l) && m == RivalMatch(met, l)
  {
    hide Consistent, Later, Stored, HeldEarlier, RivalMatch;
    assert |read.links| <= |met.links| by {
      LaterLinks(read, met);
    }
    forall v
      ensures Stored(met.links, met.cases, v, m) <==>
        (Stored(read.links, read.cases, v, m) || exists l :: l in met.links[|read.links|..] && l.address == v && m == RivalMatch(met, l))
    {
      StoredSince(read, met, v, m);
    }
  }

  lemma LaterLinks(read: Store, met: Store)
    requires Later(read, met)
    ensures read.links <= met.links
  {
  }

  /**
    * Where the law of linkage survives other imports: judged by the store the batch met, complaint n is in the earliest case
    * exactly when no rival link holds one of its wallets while it opened a case or the rival's case is earlier; and it lists
    * all cases exactly when every rival link is of a case it lists anyway.
    */
  lemma EarliestAsMetIff(read: Store, met: Store, items: seq<Item>, batchStart: int, uuid: nat -> string, n: nat)
    requires Consistent(read) && Later(read, met) && n < |items|
    ensures var placed := PlaceAll(read.links, read.cases, items, batchStart, uuid);
      InEarliest(met, items, placed, n) <==>
        forall l :: RivalLink(read, met, items, n, l) ==> !placed[n].created && placed[n].rank <= RankOf(met.cases, l.caseId)
    ensures var placed := PlaceAll(read.links, read.cases, items, batchStart, uuid);
      ListsAll(met, items, placed, n) <==> forall l :: RivalLink(read, met, items, n, l) ==> l.caseId in placed[n].linked
  {
    hide PlaceAll, Shares, Consistent, Later, RivalLink, RankOf;
    LaterLinks(read, met);
    JoinsEarliest(read.links, read.cases, items, batchStart, uuid, n);
    var placed := PlaceAll(read.links, read.cases, items, batchStart, uuid);
    forall m
      ensures Shares(met.links, met.cases, items[..n], placed[..n], items[n], m)
         <==> Shares(read.links, read.cases, items[..n], placed[..n], items[n], m) ||
              exists l :: RivalLink(read, met, items, n, l) && m == RivalMatch(met, l)
    {
      SharesSince(read, met, items, placed, n, m);
    }
    forall l | RivalLink(read, met, items, n, l)
      ensures Shares(met.links, met.cases, items[..n], placed[..n], items[n], RivalMatch(met, l))
    {
    }
  }

  lemma LinksHaveCases(s: Store)
    requires Consistent(s)
    ensures forall l :: l in s.links ==> l.caseId in s.cases
  {
  }

  // ---- one attempt ----

  /** What a batch that read one store and committed to a later one leaves. */
  ghost predicate Committed(read: Store, met: Store, after: Store, items: seq<Item>, placed: seq<Placement>, prepared: seq<seq<Prepared>>)
    requires |placed| == |items|
  {
    && Later(read, met) && Consistent(after)
    && CasesGrow(met.cases, placed, after.cases)
    && (forall n :: 0 <= n < |items| ==> placed[n].caseId in after.cases && after.cases[placed[n].caseId] == placed[n].rank)
    && (forall n :: 0 <= n < |items| ==> items[n].ackNo !in met.complaints)
    && ComplaintsGrow(met.complaints, items, placed, after.complaints)
    && after.links == met.links + NewLinks(items, placed)
    && met.traces <= after.traces && SeedsTraced(after.traces, placed, items)
    && (AddsNoTwin(after.traces, |met.traces|) <==> NoRivalTwin(read, met, AllSeeds(items, CasesOf(placed))))
    && Told(after.traces, |met.traces|, AllSeeds(items, CasesOf(placed)), Flat(prepared))
    && |prepared| == |items| && forall n :: 0 <= n < |items| ==> |prepared[n]| == |Seeds(placed[n].caseId, items[n].entries)|
  }

  /** An import nothing overtakes adds no second trace for a case, chain and seed. */
  lemma AloneNoTwin(read: Store, after: Store, items: seq<Item>, placed: seq<Placement>, prepared: seq<seq<Prepared>>)
    requires |placed| == |items| && Committed(read, read, after, items, placed, prepared)
    ensures AddsNoTwin(after.traces, |read.traces|) && (OneTracePerKey(read.traces) ==> OneTracePerKey(after.traces))
  {
    hide AllSeeds, Committed;
    TwinsAsCommitted(read, read, after, items, placed, prepared);
    if OneTracePerKey(read.traces) {
      forall i, j | 0 <= i < j < |after.traces|
        ensures KeyOf(after.traces[i]) != KeyOf(after.traces[j])
      {
        assert j < |read.traces| ==> after.traces[i] == read.traces[i] && after.traces[j] == read.traces[j];
      }
    }
  }

  datatype Import = Import(items: seq<Item>, placed: seq<Placement>, prepared: seq<seq<Prepared>>)

  /** Imports one after another, each committing to the store it read; one without new complaints leaves the store. */
  ghost predicate OneByOne(stores: seq<Store>, imports: seq<Import>) {
    |stores| == |imports| + 1 && forall i :: 0 <= i < |imports| ==> AloneAt(stores, imports, i)
  }

  ghost predicate AloneAt(stores: seq<Store>, imports: seq<Import>, i: nat)
    requires i < |imports| && |stores| == |imports| + 1
  {
    var m := imports[i];
    if m.items == [] then stores[i + 1] == stores[i]
    else |m.placed| == |m.items| && Committed(stores[i], stores[i], stores[i + 1], m.items, m.placed, m.prepared)
  }

  /** Over any sequence of imports nothing overtakes, no case, chain and seed ever gets a second trace. */
  lemma {:induction false} OneTraceEver(stores: seq<Store>, imports: seq<Import>, n: nat)
    requires OneByOne(stores, imports) && n <= |imports| && OneTracePerKey(stores[0].traces)
    ensures OneTracePerKey(stores[n].traces)
  {
    hide Committed, OneTracePerKey;
    if n > 0 {
      OneTraceEver(stores, imports, n - 1);
      assert AloneAt(stores, imports, n - 1);
      var m := imports[n - 1];
      if m.items != [] {
        AloneNoTwin(stores[n - 1], stores[n], m.items, m.placed, m.prepared);
      }
    }
  }

  lemma AskedIsStored(read: Store, met: Store, after: Store, items: seq<Item>, placed: seq<Placement>, prepared: seq<seq<Prepared>>, k: Key)
      returns (j: nat)
    requires |placed| == |items| && Committed(read, met, after, items, placed, prepared) && k in AllSeeds(items, CasesOf(placed))
    ensures j < |after.traces| && KeyOf(after.traces[j]) == k && read.traces <= met.traces <= after.traces
  {
    hide AllSeeds, AddsNoTwin, NewLinks, SeedsTraced, CasesGrow, ComplaintsGrow, Consistent, Flat, Seeds, NoRivalTwin, Carries;
    var keys := AllSeeds(items, CasesOf(placed));
    var i :| 0 <= i < |keys| && keys[i] == k;
    var p := Flat(prepared)[i];
    j := CarriesMore(met.traces, after.traces, k, p);
  }

  /** Two imports that read one store and both ask for a trace it lacks leave two of them. */
  lemma BothMakeIt(read: Store, met: Store, first: Store, second: Store, items1: seq<Item>, placed1: seq<Placement>, prepared1: seq<seq<Prepared>>,
                   items2: seq<Item>, placed2: seq<Placement>, prepared2: seq<seq<Prepared>>, k: Key)
    requires |placed1| == |items1| && Committed(read, met, first, items1, placed1, prepared1)
    requires |placed2| == |items2| && Committed(read, first, second, items2, placed2, prepared2)
    requires Missed(read.traces, AllSeeds(items1, CasesOf(placed1)), k) && k in AllSeeds(items2, CasesOf(placed2))
    ensures !AddsNoTwin(second.traces, |first.traces|)
  {
    hide AllSeeds, AddsNoTwin, Committed;
    var j := AskedIsStored(read, met, first, items1, placed1, prepared1, k);
    assert first.traces[|read.traces|..][j - |read.traces|] == first.traces[j];
    TwinsAsCommitted(read, first, second, items2, placed2, prepared2);
  }

  lemma TwinsAsCommitted(read: Store, met: Store, after: Store, items: seq<Item>, placed: seq<Placement>, prepared: seq<seq<Prepared>>)
    requires |placed| == |items| && Committed(read, met, after, items, placed, prepared)
    ensures read.traces <= met.traces <= after.traces
    ensures AddsNoTwin(after.traces, |met.traces|) <==> NoRivalTwin(read, met, AllSeeds(items, CasesOf(placed)))
  {
  }

  lemma CarriesMore(before: seq<Trace>, after: seq<Trace>, k: Key, p: Prepared) returns (j: nat)
    requires before <= after && Carries(if p.reused then after else after[|before|..], k, p.id)
    ensures j < |after| && KeyOf(after[j]) == k
  {
    var t :| t in (if p.reused then after else after[|before|..]) && KeyOf(t) == k && t.id == p.id;
    assert t in after;
    j :| 0 <= j < |after| && after[j] == t;
  }

  /** A read existing trace is still there when the batch commits. */
  lemma IndexStays(existing: map<Key, Trace>, read: Store, met: Store, joined: set<string>, uuid: nat -> string)
    requires Indexed(existing, read.traces, joined) && Later(read, met) && NewTraceIds(met.traces, uuid)
    ensures NewIds(existing, uuid) && FromStore(existing, met.traces) && forall k :: k in existing ==> KeyOf(existing[k]) == k
  {
    hide Consistent;
    forall k | k in existing
      ensures existing[k] in met.traces
    {
      var i :| 0 <= i < |read.traces| && read.traces[i] == existing[k];
      assert met.traces[i] == existing[k];
    }
  }

  lemma OpenedApart(read: Store, met: Store, placed: seq<Placement>, newCase: nat -> string, newCases: set<string>)
    requires Later(read, met) && NewCaseIds(met.cases, newCase) && OpenedAreNew(met.cases, placed, newCase)
    requires forall c :: c in newCases <==> Opened(placed, c)
    ensures forall c :: c in newCases ==> c !in read.cases
  {
    forall c | c in newCases
      ensures c !in read.cases
    {
      var k: nat :| k < |placed| && placed[k].created && placed[k].caseId == c;
    }
  }

  /** The case a complaint joined was stored when the batch read, or is one it opened. */
  lemma RanksKept(read: Store, met: Store, items: seq<Item>, batchStart: int, newCase: nat -> string, after: map<string, int>)
    requires Consistent(read) && Later(read, met)
    requires CasesGrow(met.cases, PlaceAll(read.links, read.cases, items, batchStart, newCase), after)
    ensures var placed := PlaceAll(read.links, read.cases, items, batchStart, newCase);
      forall n :: 0 <= n < |items| ==> placed[n].caseId in after && after[placed[n].caseId] == placed[n].rank
  {
    hide PlaceAll, Consistent;
    LinksHaveCases(read);
    var placed := PlaceAll(read.links, read.cases, items, batchStart, newCase);
    assert CasesKept(read.cases, placed, after);
    forall n | 0 <= n < |items|
      ensures placed[n].caseId in after && after[placed[n].caseId] == placed[n].rank
    {
      RankIsCaseTime(read.links, read.cases, items, batchStart, newCase, after, n);
    }
  }

  class IntakeService {
    var store: Store

    constructor (store: Store)
      ensures this.store == store
    {
      this.store := store;
    }

    /** One attempt: everything is worked out from the store as it was read, and written to the store as it is. */
    method Persist(read: Store, items: seq<Item>, batchStart: int, newCase: nat -> string, newTrace: nat -> string)
      returns (ok: bool, placed: seq<Placement>, prepared: seq<seq<Prepared>>, jobs: seq<Trace>)
      requires Consistent(read) && Later(read, store) && DistinctAcks(items)
      requires NewCaseIds(store.cases, newCase) && NewTraceIds(store.traces, newTrace)
      modifies this
      ensures ok <==> !Clashes(old(store).complaints, items)
      ensures !ok ==> store == old(store)
      ensures placed == PlaceAll(read.links, read.cases, items, batchStart, newCase)
      ensures ok ==> Committed(read, old(store), store, items, placed, prepared)
      ensures ok ==> OncePerId(jobs) && forall t :: t in jobs ==> t in store.traces && t.queued
      ensures ok ==> forall t :: t in store.traces && t !in old(store).traces ==> t in jobs
    {
      hide PlaceAll, Values, PlanRight, EntriesServed, NewLinks, AddsNoTwin, SeedsTraced, CasesGrow, ComplaintsGrow, NoRivalTwin,
        Told, Answered, AllSeeds, Seeds, Consistent, NewCaseIds, NewTraceIds, OpenedAreNew, OncePerId, DistinctAcks, Indexed, NewIds, Opened, FromStore;
      var met := store;
      placed := LinkItems(read.links, read.cases, items, batchStart, newCase);
      CreatedIsNew(read.links, read.cases, items, batchStart, newCase);
      SameOpened(read.cases, met.cases, placed, newCase);
      var cases, newCases := OpenCases(met.cases, placed, newCase);

      // traces of cases the batch joins are reused
      var joined := (set c | c in CasesOf(placed)) - newCases;
      var existing := IndexTraces(read.traces, joined);
      IndexStays(existing, read, met, joined, newTrace);
      var plan;
      plan, prepared := PrepareTraces(items, CasesOf(placed), existing, newTrace);
      jobs := plan.jobs;
      if Clashes(met.complaints, items) {
        return false, placed, prepared, jobs;
      }
      var complaints, links := StoreComplaints(met.complaints, met.links, items, placed);
      store := Store(cases, complaints, links, met.traces + plan.added);

      OpenedApart(read, met, placed, newCase, newCases);
      AskedFor(existing, plan, AllSeeds(items, CasesOf(placed)), Flat(prepared), newTrace);
      TwinIff(read, met, joined, newCases, existing, newTrace, plan, AllSeeds(items, CasesOf(placed)));
      AllSeedsTraced(existing, newTrace, met.traces, plan, placed, items);
      AnswersTold(existing, met.traces, newTrace, plan, AllSeeds(items, CasesOf(placed)), Flat(prepared));
      TraceIdsUnique(met);
      IdsStayUnique(existing, newTrace, met.traces, plan);
      RanksKept(read, met, items, batchStart, newCase, cases);
      StaysConsistent(met, items, placed, plan.added, store);
      PlanJobs(existing, met.traces, newTrace, plan);
      ok := true;
    }

    /**
      * The whole import. newCase and newTrace give the ids of the rows it creates, batchStart the clock at each attempt;
      * pending lists the rows that become complaints, items the complaints themselves. False: the third attempt failed too.
      */
    method Ingest(inputs: seq<Input>, batchStart: nat -> int, newCase: nat -> string, newTrace: nat -> string, rivals: Rivals)
      returns (ok: bool, attempt: nat, statuses: seq<Status>, pending: seq<nat>, dupCases: set<string>, items: seq<Item>,
               placed: seq<Placement>, prepared: seq<seq<Prepared>>, jobs: seq<Trace>)
      requires Rely(store, rivals, newCase, newTrace)
      modifies this
      ensures attempt <= 2 && forall k :: 0 <= k < attempt ==> Overtaken(rivals, inputs, k)
      ensures Sorted(rivals.seen(attempt).complaints, inputs, statuses, pending, dupCases)
      ensures |items| == |pending| && forall k :: 0 <= k < |pending| ==> pending[k] < |inputs| && inputs[pending[k]] == Some(items[k])
      ensures !ok ==> attempt == 2 && Overtaken(rivals, inputs, attempt) && store == rivals.met(attempt)
      ensures ok ==> placed == PlaceAll(rivals.seen(attempt).links, rivals.seen(attempt).cases, items, batchStart(attempt), newCase)
      ensures ok ==>
        if items == [] then store == rivals.seen(attempt) && prepared == []
        else Committed(rivals.seen(attempt), rivals.met(attempt), store, items, placed, prepared)
      ensures ok ==> OncePerId(jobs) && forall t :: t in jobs ==> t in store.traces && t.queued
      ensures ok && items != [] ==> forall t :: t in store.traces && t !in rivals.met(attempt).traces ==> t in jobs
      ensures ok ==> forall t :: t in store.traces && t.queued && t.caseId in dupCases ==> HasJob(jobs, t.id)
    {
      hide PlaceAll, Sorted, Filtered, Committed, Consistent, NewCaseIds, NewTraceIds, OncePerId, DistinctAcks, HasJob, Overtaken, Later, RelyAt;
      store := rivals.seen(0);
      attempt, placed, prepared, jobs := 0, [], [], [];
      statuses, pending, dupCases := SortRows(store.complaints, inputs);
      while true
        invariant attempt <= MAX_RETRIES && store == rivals.seen(attempt)
        invariant Sorted(rivals.seen(attempt).complaints, inputs, statuses, pending, dupCases)
        invariant forall k :: 0 <= k < attempt ==> Overtaken(rivals, inputs, k)
        decreases MAX_RETRIES - attempt
      {
        PendingAreNew(store.complaints, inputs, statuses, pending, dupCases);
        items := ItemsAt(inputs, pending);
        RelyFacts(rivals, newCase, newTrace, attempt);
        if items == [] {
          placed, prepared := [], [];
          NothingPlaced(store, batchStart(attempt), newCase);
          jobs := Reassert([], store.traces, dupCases);
          return true, attempt, statuses, pending, dupCases, items, placed, prepared, jobs;
        }
        store := rivals.met(attempt);
        ok, placed, prepared, jobs := Persist(rivals.seen(attempt), items, batchStart(attempt), newCase, newTrace);
        if ok {
          CommittedIsConsistent(rivals.seen(attempt), rivals.met(attempt), store, items, placed, prepared);
          jobs := Reassert(jobs, store.traces, dupCases);
          return;
        }
        PendingAreFirst(rivals.seen(attempt).complaints, inputs, statuses, pending, dupCases);
        ClashOvertakes(rivals, inputs, statuses, pending, dupCases, attempt);
        if attempt >= MAX_RETRIES {
          return;
        }
        attempt := attempt + 1;
        store := rivals.seen(attempt);
        var statuses', pending', more := DropExisting(store.complaints, inputs, statuses, pending);
        SortedAgain(rivals.seen(attempt - 1).complaints, store.complaints, inputs, statuses, pending, dupCases, statuses', pending', more);
        statuses, pending, dupCases := statuses', pending', dupCases + more;
      }
    }

    lemma RelyFacts(r: Rivals, newCase: nat -> string, newTrace: nat -> string, k: nat)
      requires forall j :: RelyAt(r, newCase, newTrace, j)
      ensures Consistent(r.seen(k)) && Later(r.seen(k), r.met(k)) && OncePerId(r.seen(k).traces)
      ensures NewCaseIds(r.met(k).cases, newCase) && NewTraceIds(r.met(k).traces, newTrace)
      ensures forall a :: a in r.seen(k).complaints ==> a in r.seen(k + 1).complaints && r.seen(k + 1).complaints[a] == r.seen(k).complaints[a]
    {
      hide NewCaseIds, NewTraceIds;
      assert RelyAt(r, newCase, newTrace, k);
    }

    lemma NothingPlaced(s: Store, batchStart: int, newCase: nat -> string)
      ensures PlaceAll(s.links, s.cases, [], batchStart, newCase) == []
    {
    }

    lemma CommittedIsConsistent(read: Store, met: Store, after: Store, items: seq<Item>, placed: seq<Placement>, prepared: seq<seq<Prepared>>)
      requires |placed| == |items| && Committed(read, met, after, items, placed, prepared)
      ensures OncePerId(after.traces)
    {
    }

    lemma PendingAreFirst(complaints: map<string, Option<string>>, inputs: seq<Input>, statuses: seq<Status>, pending: seq<nat>, dupCases: set<string>)
      requires Sorted(complaints, inputs, statuses, pending, dupCases)
      ensures |statuses| == |inputs| && Increasing(pending) && forall i: nat :: i in pending ==> FirstOfFile(inputs, i)
    {
    }

    lemma TraceIdsUnique(s: Store)
      requires Consistent(s)
      ensures OncePerId(s.traces)
    {
    }

    lemma SameOpened(cases: map<string, int>, later: map<string, int>, placed: seq<Placement>, newCase: nat -> string)
      requires OpenedAreNew(cases, placed, newCase)
      ensures OpenedAreNew(later, placed, newCase)
    {
    }

    lemma AskedFor(existing: map<Key, Trace>, plan: Plan, keys: seq<Key>, answers: seq<Prepared>, uuid: nat -> string)
      requires Answered(existing, map[], plan.seen, keys, answers) && PlanRight(existing, uuid, plan)
      ensures SeenGrows(existing, map[], plan.seen, keys) && AddedRight(existing, uuid, plan.added, plan.seen)
    {
    }
  }
}
