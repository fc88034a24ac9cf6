// apps/api/src/intake/service.ts, ingest: a batch of complaints against the stored ones.
module Intake {
  import opened IntakeLinking
  import opened IntakeTraces
  import opened Sequences
  import opened Wrappers

  /** complaints: the case of every stored acknowledgement number; cases: their creation times. */
  datatype Store = Store(cases: map<string, int>, complaints: map<string, Option<string>>, links: seq<Link>, traces: seq<Trace>)

  /** None: a row that could not be read, or failed validation. */
  type Input = Option<Item>

  datatype Status = Created | DuplicateInFile | DuplicateStored | Invalid

  /** The foreign keys and primary keys of the database. */
  ghost predicate Consistent(s: Store) {
    && (forall l :: l in s.links ==> l.caseId in s.cases)
    && (forall t :: t in s.traces ==> t.caseId in s.cases)
    && (forall a :: a in s.complaints && s.complaints[a].Some? ==> s.complaints[a].value in s.cases)
    && OncePerId(s.traces)
  }

  ghost predicate SeenEarlier(inputs: seq<Input>, i: nat)
    requires i < |inputs| && inputs[i].Some?
  {
    exists j :: 0 <= j < i && inputs[j].Some? && inputs[j].value.ackNo == inputs[i].value.ackNo
  }

  ghost predicate FirstOfFile(inputs: seq<Input>, i: nat) {
    i < |inputs| && inputs[i].Some? && !SeenEarlier(inputs, i)
  }

  ghost function StatusOf(complaints: map<string, Option<string>>, inputs: seq<Input>, i: nat): Status
    requires i < |inputs|
  {
    if inputs[i].None? then Invalid
    else if SeenEarlier(inputs, i) then DuplicateInFile
    else if inputs[i].value.ackNo in complaints then DuplicateStored
    else Created
  }

  ghost predicate Increasing(s: seq<nat>) {
    forall i, j :: 0 <= i < j < |s| ==> s[i] < s[j]
  }

  lemma PushIncreasing(s: seq<nat>, x: nat)
    requires Increasing(s) && forall e :: e in s ==> e < x
    ensures Increasing(s + [x])
  {
    assert forall i :: 0 <= i < |s| ==> s[i] in s;
  }

  // ---- sorting the rows ----

  /** Repeats of an acknowledgement number inside the file are dropped first. */
  method ReadRows(inputs: seq<Input>) returns (statuses: seq<Status>, pending: seq<nat>)
    ensures |statuses| == |inputs| && Increasing(pending)
    ensures forall i: nat :: i in pending <==> FirstOfFile(inputs, i)
    ensures forall i :: 0 <= i < |inputs| && !FirstOfFile(inputs, i) ==> statuses[i] == StatusOf(map[], inputs, i)
  {
    statuses, pending := [], [];
    var firstSeen: set<string> := {};
    for i := 0 to |inputs|
      invariant |statuses| == i && Increasing(pending)
      invariant forall k: nat :: k in pending <==> k < i && FirstOfFile(inputs, k)
      invariant forall k :: 0 <= k < i && !FirstOfFile(inputs, k) ==> statuses[k] == StatusOf(map[], inputs, k)
      invariant forall a :: a in firstSeen <==> exists j :: 0 <= j < i && inputs[j].Some? && inputs[j].value.ackNo == a
    {
      if inputs[i].None? {
        statuses := statuses + [Invalid];
      } else if inputs[i].value.ackNo in firstSeen {
        statuses := statuses + [DuplicateInFile];
      } else {
        firstSeen := firstSeen + {inputs[i].value.ackNo};
        statuses := statuses + [Created];
        PushIncreasing(pending, i);
        pending := pending + [i];
      }
    }
  }

  function CaseSet(c: Option<string>): set<string> {
    if c.Some? then {c.value} else {}
  }

  /** Row i is the first of its number in the file; what the store says of it. */
  ghost predicate InStore(complaints: map<string, Option<string>>, inputs: seq<Input>, i: nat) {
    FirstOfFile(inputs, i) && inputs[i].value.ackNo in complaints
  }

  ghost predicate DupOf(complaints: map<string, Option<string>>, inputs: seq<Input>, i: nat, c: string) {
    InStore(complaints, inputs, i) && complaints[inputs[i].value.ackNo] == Some(c)
  }

  /** What filtering the first k pending rows against the store has done. */
  ghost predicate Filtered(complaints: map<string, Option<string>>, inputs: seq<Input>, statuses0: seq<Status>, pending0: seq<nat>,
                           k: nat, statuses: seq<Status>, pending: seq<nat>, dupCases: set<string>)
    requires k <= |pending0| && |statuses0| == |inputs|
  {
    && |statuses| == |inputs| && Increasing(pending)
    && (forall i :: i in pending <==> i in pending0[..k] && !InStore(complaints, inputs, i))
    && (forall i: nat :: i < |inputs| ==>
      statuses[i] == if i in pending0[..k] then (if InStore(complaints, inputs, i) then DuplicateStored else Created) else statuses0[i])
    && (forall c :: c in dupCases <==> exists i :: i in pending0[..k] && DupOf(complaints, inputs, i, c))
  }

  lemma FilterOne(complaints: map<string, Option<string>>, inputs: seq<Input>, statuses0: seq<Status>, pending0: seq<nat>,
                  k: nat, statuses: seq<Status>, pending: seq<nat>, dupCases: set<string>)
    requires k < |pending0| && |statuses0| == |inputs| && Increasing(pending0) && pending0[k] < |inputs|
    requires Filtered(complaints, inputs, statuses0, pending0, k, statuses, pending, dupCases)
    ensures var i := pending0[k];
      if InStore(complaints, inputs, i) then
        Filtered(complaints, inputs, statuses0, pending0, k + 1, statuses[i := DuplicateStored], pending,
                 dupCases + CaseSet(complaints[inputs[i].value.ackNo]))
      else
        Filtered(complaints, inputs, statuses0, pending0, k + 1, statuses[i := Created], pending + [i], dupCases)
  {
    hide InStore, Increasing;
    var i, upTo := pending0[k], pending0[..k];
    assert pending0[..k + 1] == upTo + [i];
    assert i !in upTo && Increasing(pending) && Increasing(pending + [i]) by {
      LaterThanAll(pending0, k);
      PushIncreasing(pending, i);
    }
    assert forall j :: j in pending0[..k + 1] <==> j in upTo || j == i;
    CasesOfDup(complaints, inputs, i);
  }

  lemma LaterThanAll(s: seq<nat>, k: nat)
    requires Increasing(s) && k < |s|
    ensures forall e :: e in s[..k] ==> e < s[k]
  {
  }

  lemma CasesOfDup(complaints: map<string, Option<string>>, inputs: seq<Input>, i: nat)
    ensures if InStore(complaints, inputs, i) then forall c :: DupOf(complaints, inputs, i, c) <==> c in CaseSet(complaints[inputs[i].value.ackNo])
            else forall c :: !DupOf(complaints, inputs, i, c)
  {
  }

  /** Then those already stored; the cases of those are kept aside. */
  method DropExisting(complaints: map<string, Option<string>>, inputs: seq<Input>, statuses0: seq<Status>, pending0: seq<nat>)
    returns (statuses: seq<Status>, pending: seq<nat>, dupCases: set<string>)
    requires |statuses0| == |inputs| && Increasing(pending0) && forall i: nat :: i in pending0 ==> FirstOfFile(inputs, i)
    ensures Filtered(complaints, inputs, statuses0, pending0, |pending0|, statuses, pending, dupCases)
  {
    statuses, pending, dupCases := statuses0, [], {};
    for k := 0 to |pending0|
      invariant Filtered(complaints, inputs, statuses0, pending0, k, statuses, pending, dupCases)
    {
      var i := pending0[k];
      assert i in pending0;
      FilterOne(complaints, inputs, statuses0, pending0, k, statuses, pending, dupCases);
      hide Filtered;
      var ack := inputs[i].value.ackNo;
      if ack in complaints {
        statuses := statuses[i := DuplicateStored];
        dupCases := dupCases + CaseSet(complaints[ack]);
      } else {
        statuses := statuses[i := Created];
        pending := pending + [i];
      }
    }
  }

  /** Every row has its one status, the new complaints are lined up in file order, and the cases of stored repeats are known. */
  ghost predicate Sorted(complaints: map<string, Option<string>>, inputs: seq<Input>, statuses: seq<Status>, pending: seq<nat>, dupCases: set<string>) {
    && |statuses| == |inputs| && Increasing(pending)
    && (forall i :: 0 <= i < |inputs| ==> statuses[i] == StatusOf(complaints, inputs, i))
    && (forall i: nat :: i in pending <==> i < |inputs| && StatusOf(complaints, inputs, i) == Created)
    && (forall c :: c in dupCases <==> exists i: nat :: i < |inputs| && DupOf(complaints, inputs, i, c))
  }

  method SortRows(complaints: map<string, Option<string>>, inputs: seq<Input>)
    returns (statuses: seq<Status>, pending: seq<nat>, dupCases: set<string>)
    ensures Sorted(complaints, inputs, statuses, pending, dupCases)
  {
    var statuses0, pending0 := ReadRows(inputs);
    statuses, pending, dupCases := DropExisting(complaints, inputs, statuses0, pending0);
    assert pending0[..|pending0|] == pending0;
    hide Increasing, SeenEarlier;
  }

  function CountOf(statuses: seq<Status>, which: Status): nat {
    if statuses == [] then 0
    else CountOf(statuses[..|statuses| - 1], which) + (if statuses[|statuses| - 1] == which then 1 else 0)
  }

  /** total = created + duplicates + invalid, and created counts the complaints of the batch. */
  lemma {:induction false} CountsAddUp(statuses: seq<Status>)
    ensures |statuses| == CountOf(statuses, Created) + CountOf(statuses, DuplicateInFile) + CountOf(statuses, DuplicateStored) + CountOf(statuses, Invalid)
  {
    if statuses != [] {
      CountsAddUp(statuses[..|statuses| - 1]);
    }
  }

  ghost predicate CreatedAt(statuses: seq<Status>, pending: seq<nat>) {
    Increasing(pending) && forall i: nat :: i in pending <==> i < |statuses| && statuses[i] == Created
  }

  lemma DropLastCreated(statuses: seq<Status>, pending: seq<nat>)
    requires CreatedAt(statuses, pending) && statuses != [] && statuses[|statuses| - 1] == Created
    ensures pending != [] && CreatedAt(statuses[..|statuses| - 1], pending[..|pending| - 1])
  {
    var n, k := |statuses| - 1, |pending| - 1;
    assert n in pending && pending[k] in pending;
    LaterThanAll(pending, k);
    assert pending == pending[..k] + [pending[k]];
    assert pending[k] == n;
  }

  lemma {:induction false} CreatedCount(statuses: seq<Status>, pending: seq<nat>)
    requires CreatedAt(statuses, pending)
    ensures CountOf(statuses, Created) == |pending|
  {
    assert pending == [] || pending[0] in pending;
    if statuses != [] {
      var n := |statuses| - 1;
      if statuses[n] == Created {
        DropLastCreated(statuses, pending);
        CreatedCount(statuses[..n], pending[..|pending| - 1]);
      } else {
        CreatedCount(statuses[..n], pending);
      }
    }
  }

  // ---- the cases of a batch ----

  /** Ids that no stored case has. */
  ghost predicate NewCaseIds(cases: map<string, int>, uuid: nat -> string) {
    (forall m, n :: m != n ==> uuid(m) != uuid(n)) && forall n :: uuid(n) !in cases
  }

  function CasesOf(placed: seq<Placement>): (r: seq<string>)
    ensures |r| == |placed| && forall i :: 0 <= i < |placed| ==> r[i] == placed[i].caseId
  {
    seq(|placed|, i requires 0 <= i < |placed| => placed[i].caseId)
  }

  ghost predicate Opened(placed: seq<Placement>, c: string) {
    exists k :: 0 <= k < |placed| && placed[k].created && placed[k].caseId == c
  }

  /** The cases after a batch: those before it, and the ones it opened at their ranks. */
  ghost predicate CasesGrow(before: map<string, int>, placed: seq<Placement>, after: map<string, int>) {
    CasesKept(before, placed, after) && forall c :: c in after ==> c in before || Opened(placed, c)
  }

  ghost predicate CasesKept(before: map<string, int>, placed: seq<Placement>, after: map<string, int>) {
    && (forall c :: c in before ==> c in after && after[c] == before[c])
    && (forall k :: 0 <= k < |placed| && placed[k].created ==> placed[k].caseId in after && after[placed[k].caseId] == placed[k].rank)
  }

  ghost predicate OpenedAreNew(cases: map<string, int>, placed: seq<Placement>, uuid: nat -> string) {
    forall k: nat :: k < |placed| && placed[k].created ==> placed[k].caseId == uuid(k)
  }

  lemma OpenOne(cases: map<string, int>, placed: seq<Placement>, uuid: nat -> string, k: nat, after: map<string, int>)
    requires NewCaseIds(cases, uuid) && OpenedAreNew(cases, placed, uuid) && k < |placed| && CasesGrow(cases, placed[..k], after)
    ensures CasesGrow(cases, placed[..k + 1], if placed[k].created then after[placed[k].caseId := placed[k].rank] else after)
    ensures forall c :: Opened(placed[..k + 1], c) <==> Opened(placed[..k], c) || (placed[k].created && placed[k].caseId == c)
  {
    var before, more := placed[..k], placed[..k + 1];
    assert more == before + [placed[k]];
    forall c
      ensures Opened(more, c) <==> Opened(before, c) || (placed[k].created && placed[k].caseId == c)
    {
      if i :| 0 <= i < k && before[i].created && before[i].caseId == c {
        assert more[i].created && more[i].caseId == c;
      }
      assert more[k] == placed[k];
    }
  }

  method OpenCases(cases: map<string, int>, placed: seq<Placement>, ghost uuid: nat -> string)
    returns (after: map<string, int>, newCases: set<string>)
    requires NewCaseIds(cases, uuid) && OpenedAreNew(cases, placed, uuid)
    ensures CasesGrow(cases, placed, after) && forall c :: c in newCases <==> Opened(placed, c)
  {
    hide CasesGrow, Opened, NewCaseIds, OpenedAreNew;
    after, newCases := cases, {};
    NothingOpened(cases);
    for k := 0 to |placed|
      invariant CasesGrow(cases, placed[..k], after) && forall c :: c in newCases <==> Opened(placed[..k], c)
    {
      OpenOne(cases, placed, uuid, k, after);
      if placed[k].created {
        after := after[placed[k].caseId := placed[k].rank];
        newCases := newCases + {placed[k].caseId};
      }
    }
    assert placed[..|placed|] == placed;
  }

  lemma NothingOpened(cases: map<string, int>)
    ensures CasesGrow(cases, [], cases) && forall c :: !Opened([], c)
  {
  }

  lemma CreatedIsNew(links: seq<Link>, cases: map<string, int>, items: seq<Item>, batchStart: int, uuid: nat -> string)
    ensures OpenedAreNew(cases, PlaceAll(links, cases, items, batchStart, uuid), uuid)
  {
    hide PlaceAll, Shares;
    forall k: nat | k < |items|
      ensures var p := PlaceAll(links, cases, items, batchStart, uuid)[k]; p.created ==> p.caseId == uuid(k)
    {
      JoinsEarliest(links, cases, items, batchStart, uuid, k);
    }
  }

  /** The rank a complaint is compared by is the creation time of its case, also for the next batch. */
  lemma {:induction false} RankIsCaseTime(links: seq<Link>, cases: map<string, int>, items: seq<Item>, batchStart: int, uuid: nat -> string,
                                          after: map<string, int>, n: nat)
    requires forall l :: l in links ==> l.caseId in cases
    requires CasesKept(cases, PlaceAll(links, cases, items, batchStart, uuid), after) && n < |items|
    ensures var p := PlaceAll(links, cases, items, batchStart, uuid)[n]; p.caseId in after && after[p.caseId] == p.rank
    ensures var p := PlaceAll(links, cases, items, batchStart, uuid)[n]; p.caseId in cases || Opened(PlaceAll(links, cases, items, batchStart, uuid), p.caseId)
    decreases n
  {
    hide PlaceAll, Values;
    JoinsEarliest(links, cases, items, batchStart, uuid, n);
    var placed := PlaceAll(links, cases, items, batchStart, uuid);
    if !placed[n].created {
      var m :| Shares(links, cases, items[..n], placed[..n], items[n], m) && m.caseId == placed[n].caseId && m.rank == placed[n].rank;
      var v :| Holds(items[n], v) && (Stored(links, cases, v, m) || exists i: nat :: HeldEarlier(items[..n], placed[..n], i, v, m));
      if !Stored(links, cases, v, m) {
        var i: nat :| HeldEarlier(items[..n], placed[..n], i, v, m);
        RankIsCaseTime(links, cases, items, batchStart, uuid, after, i);
      }
    }
  }

  // ---- one trace per case, chain and seed ----

  ghost predicate OneTracePerKey(traces: seq<Trace>) {
    forall i, j :: 0 <= i < j < |traces| ==> KeyOf(traces[i]) != KeyOf(traces[j])
  }

  /** The traces from position n on repeat no key, of each other or of those before. */
  ghost predicate AddsNoTwin(traces: seq<Trace>, n: nat) {
    forall i, j :: 0 <= i < j < |traces| && n <= j ==> KeyOf(traces[i]) != KeyOf(traces[j])
  }

  // ---- the batch ----

  ghost function NewLinks(items: seq<Item>, placed: seq<Placement>): seq<Link>
    requires |placed| == |items|
  {
    if items == [] then []
    else
      var n := |items| - 1;
      NewLinks(items[..n], placed[..n]) + LinksOf(items[n].ackNo, placed[n].caseId, Values(items[n].entries))
  }

  function LinksOf(ackNo: string, caseId: string, values: seq<string>): (r: seq<Link>)
    ensures forall l :: l in r ==> l.caseId == caseId
  {
    seq(|values|, i requires 0 <= i < |values| => Link(values[i], ackNo, caseId))
  }

  ghost predicate DistinctAcks(items: seq<Item>) {
    forall i, j :: 0 <= i < j < |items| ==> items[i].ackNo != items[j].ackNo
  }

  /** The complaints after a batch: those before it unchanged, and each new one in its case. */
  ghost predicate ComplaintsGrow(before: map<string, Option<string>>, items: seq<Item>, placed: seq<Placement>, after: map<string, Option<string>>)
    requires |placed| == |items|
  {
    && (forall a :: a in before ==> a in after && after[a] == before[a])
    && (forall a :: a in after ==> a in before || exists n :: 0 <= n < |items| && items[n].ackNo == a)
    && (forall n :: 0 <= n < |items| ==> items[n].ackNo in after && after[items[n].ackNo] == Some(placed[n].caseId))
  }

  lemma ComplaintAdded(before: map<string, Option<string>>, items: seq<Item>, placed: seq<Placement>, n: nat, after: map<string, Option<string>>)
    requires |placed| == |items| && n < |items| && DistinctAcks(items) && items[n].ackNo !in before
    requires ComplaintsGrow(before, items[..n], placed[..n], after)
    ensures ComplaintsGrow(before, items[..n + 1], placed[..n + 1], after[items[n].ackNo := Some(placed[n].caseId)])
  {
    var more := items[..n + 1];
    assert more[n] == items[n] && forall i :: 0 <= i < n ==> more[i] == items[..n][i];
  }

  lemma LinksAdded(items: seq<Item>, placed: seq<Placement>, n: nat)
    requires |placed| == |items| && n < |items|
    ensures NewLinks(items[..n + 1], placed[..n + 1]) ==
      NewLinks(items[..n], placed[..n]) + LinksOf(items[n].ackNo, placed[n].caseId, Values(items[n].entries))
  {
    assert items[..n + 1][..n] == items[..n] && placed[..n + 1][..n] == placed[..n];
  }

  method StoreComplaints(complaints: map<string, Option<string>>, links: seq<Link>, items: seq<Item>, placed: seq<Placement>)
    returns (after: map<string, Option<string>>, allLinks: seq<Link>)
    requires |placed| == |items| && DistinctAcks(items) && forall n :: 0 <= n < |items| ==> items[n].ackNo !in complaints
    ensures ComplaintsGrow(complaints, items, placed, after) && allLinks == links + NewLinks(items, placed)
  {
    hide Values, NewLinks, DistinctAcks, LinksOf;
    after, allLinks := complaints, links;
    NoLinks();
    for n := 0 to |items|
      invariant ComplaintsGrow(complaints, items[..n], placed[..n], after) && allLinks == links + NewLinks(items[..n], placed[..n])
    {
      ComplaintAdded(complaints, items, placed, n, after);
      LinksAdded(items, placed, n);
      hide ComplaintsGrow;
      after := after[items[n].ackNo := Some(placed[n].caseId)];
      allLinks := allLinks + LinksOf(items[n].ackNo, placed[n].caseId, Values(items[n].entries));
    }
    assert items[..|items|] == items && placed[..|placed|] == placed;
  }

  lemma NoLinks()
    ensures NewLinks([], []) == []
  {
  }

  lemma {:induction false} NewLinksOf(items: seq<Item>, placed: seq<Placement>, l: Link)
    requires |placed| == |items| && l in NewLinks(items, placed)
    ensures exists n :: 0 <= n < |items| && l.caseId == placed[n].caseId
  {
    hide Values;
    var n := |items| - 1;
    if l in NewLinks(items[..n], placed[..n]) {
      NewLinksOf(items[..n], placed[..n], l);
    }
  }

  function ItemsAt(inputs: seq<Input>, pending: seq<nat>): (r: seq<Item>)
    requires forall k :: 0 <= k < |pending| ==> pending[k] < |inputs| && inputs[pending[k]].Some?
    ensures |r| == |pending| && forall k :: 0 <= k < |r| ==> r[k] == inputs[pending[k]].value
  {
    seq(|pending|, k requires 0 <= k < |pending| => inputs[pending[k]].value)
  }

  lemma PendingAreNew(complaints: map<string, Option<string>>, inputs: seq<Input>, statuses: seq<Status>, pending: seq<nat>, dupCases: set<string>)
    requires Sorted(complaints, inputs, statuses, pending, dupCases)
    ensures forall k :: 0 <= k < |pending| ==> pending[k] < |inputs| && inputs[pending[k]].Some?
    ensures DistinctAcks(ItemsAt(inputs, pending))
    ensures forall n :: 0 <= n < |pending| ==> ItemsAt(inputs, pending)[n].ackNo !in complaints
  {
    forall n | 0 <= n < |pending|
      ensures pending[n] < |inputs| && StatusOf(complaints, inputs, pending[n]) == Created
    {
      assert pending[n] in pending;
    }
    var items := ItemsAt(inputs, pending);
    forall i, j | 0 <= i < j < |items|
      ensures items[i].ackNo != items[j].ackNo
    {
      assert !SeenEarlier(inputs, pending[j]);
    }
  }

  /** Cases of complaints that came again have their still queued traces enqueued once more. */
  method Reassert(jobs0: seq<Trace>, traces: seq<Trace>, dupCases: set<string>) returns (jobs: seq<Trace>)
    requires OncePerId(jobs0) && OncePerId(traces)
    ensures OncePerId(jobs) && jobs0 <= jobs
    ensures forall t :: t in jobs ==> t in jobs0 || (t in traces && t.queued && t.caseId in dupCases)
    ensures forall t :: t in traces && t.queued && t.caseId in dupCases ==> HasJob(jobs, t.id)
  {
    jobs := jobs0;
    for i := 0 to |traces|
      invariant OncePerId(jobs) && jobs0 <= jobs
      invariant forall t :: t in jobs ==> t in jobs0 || (t in traces[..i] && t.queued && t.caseId in dupCases)
      invariant forall t :: t in traces[..i] && t.queued && t.caseId in dupCases ==> HasJob(jobs, t.id)
    {
      var t := traces[i];
      assert traces[..i + 1] == traces[..i] + [t];
      if t.caseId in dupCases && t.queued && !HasJob(jobs0, t.id) {
        forall k | 0 <= k < |jobs|
          ensures jobs[k].id != t.id
        {
          assert jobs[k] in jobs;
          if jobs[k] in traces[..i] {
            var m :| 0 <= m < i && traces[m] == jobs[k];
          }
        }
        ghost var before := jobs;
        jobs := jobs + [t];
        JobsStay(before, jobs);
        assert jobs[|before|] == t;
      } else {
        JobsStay(jobs0, jobs);
      }
    }
    assert traces[..|traces|] == traces;
  }

  lemma JobsStay(before: seq<Trace>, after: seq<Trace>)
    requires before <= after
    ensures forall id :: HasJob(before, id) ==> HasJob(after, id)
  {
    forall id | HasJob(before, id)
      ensures HasJob(after, id)
    {
      var i :| 0 <= i < |before| && before[i].id == id;
      assert after[i].id == id;
    }
  }

  ghost predicate NewTraceIds(traces: seq<Trace>, uuid: nat -> string) {
    (forall m, n :: m != n ==> uuid(m) != uuid(n)) && forall t, n :: t in traces ==> t.id != uuid(n)
  }

  ghost predicate FromStore(existing: map<Key, Trace>, stored: seq<Trace>) {
    forall k :: k in existing ==> existing[k] in stored && KeyOf(existing[k]) == k
  }

  /** Every seed of every new complaint has its trace. */
  ghost predicate SeedsTraced(traces: seq<Trace>, placed: seq<Placement>, items: seq<Item>)
    requires |placed| == |items|
  {
    forall n, e, c :: 0 <= n < |items| && e in items[n].entries && c in SeedChains(e) ==> HasKey(traces, (placed[n].caseId, c, e.value))
  }

  ghost predicate HasKey(traces: seq<Trace>, key: Key) {
    exists i :: 0 <= i < |traces| && KeyOf(traces[i]) == key
  }

  lemma ServedHasTrace(existing: map<Key, Trace>, uuid: nat -> string, stored: seq<Trace>, plan: Plan, key: Key)
    requires PlanRight(existing, uuid, plan) && Served(existing, plan, key) && FromStore(existing, stored)
    ensures HasKey(stored + plan.added, key)
  {
    var all := stored + plan.added;
    if key in existing {
      var i :| 0 <= i < |stored| && stored[i] == existing[key];
      assert all[i] == existing[key];
    } else {
      var i :| 0 <= i < |plan.added| && KeyOf(plan.added[i]) == key;
      assert all[|stored| + i] == plan.added[i];
    }
  }

  lemma AllSeedsTraced(existing: map<Key, Trace>, uuid: nat -> string, stored: seq<Trace>, plan: Plan, placed: seq<Placement>, items: seq<Item>)
    requires |placed| == |items| && PlanRight(existing, uuid, plan) && FromStore(existing, stored)
    requires forall n :: 0 <= n < |items| ==> EntriesServed(existing, plan, CasesOf(placed)[n], items[n].entries)
    ensures SeedsTraced(stored + plan.added, placed, items)
  {
    hide PlanRight, Served, HasKey;
    forall n, e, c | 0 <= n < |items| && e in items[n].entries && c in SeedChains(e)
      ensures HasKey(stored + plan.added, (placed[n].caseId, c, e.value))
    {
      assert EntriesServed(existing, plan, CasesOf(placed)[n], items[n].entries);
      assert EntryServed(existing, plan, placed[n].caseId, e);
      ServedHasTrace(existing, uuid, stored, plan, (placed[n].caseId, c, e.value));
    }
  }

  lemma IdsStayUnique(existing: map<Key, Trace>, uuid: nat -> string, stored: seq<Trace>, plan: Plan)
    requires OncePerId(stored) && NewTraceIds(stored, uuid) && PlanRight(existing, uuid, plan)
    ensures OncePerId(stored + plan.added)
  {
    var all := stored + plan.added;
    forall i, j | 0 <= i < j < |all|
      ensures all[i].id != all[j].id
    {
      if i < |stored| <= j {
        assert all[i] in stored;
      }
    }
  }

  lemma {:induction false} StaysConsistent(s: Store, items: seq<Item>, placed: seq<Placement>, added: seq<Trace>, after: Store)
    requires Consistent(s) && |placed| == |items| && CasesGrow(s.cases, placed, after.cases)
    requires forall n :: 0 <= n < |items| ==> placed[n].caseId in after.cases
    requires ComplaintsGrow(s.complaints, items, placed, after.complaints)
    requires after.links == s.links + NewLinks(items, placed) && after.traces == s.traces + added
    requires OncePerId(after.traces) && forall t :: t in added ==> t.caseId in CasesOf(placed)
    ensures Consistent(after)
  {
    hide NewLinks, Opened, OncePerId;
    forall l | l in after.links
      ensures l.caseId in after.cases
    {
      if l !in s.links {
        NewLinksOf(items, placed, l);
      }
    }
  }

  lemma PlanJobs(existing: map<Key, Trace>, stored: seq<Trace>, uuid: nat -> string, plan: Plan)
    requires FromStore(existing, stored) && PlanRight(existing, uuid, plan)
    ensures OncePerId(plan.jobs) && forall t :: t in plan.jobs ==> t in stored + plan.added && t.queued
    ensures forall t :: t in (stored + plan.added)[|stored|..] ==> t in plan.jobs
  {
    assert (stored + plan.added)[|stored|..] == plan.added;
  }

  /** A trace of the given key carries the id the complaint's row is told. */
  ghost predicate Carries(traces: seq<Trace>, k: Key, id: string) {
    exists t :: t in traces && KeyOf(t) == k && t.id == id
  }

  /**
    * Every request of the batch is answered in order with the id of a stored trace of its key, and each new trace is
    * reported as new by exactly one of them.
    */
  ghost predicate Told(traces: seq<Trace>, old0: nat, keys: seq<Key>, answers: seq<Prepared>)
    requires old0 <= |traces|
  {
    && |answers| == |keys|
    && (forall i :: 0 <= i < |keys| ==> answers[i].chain == keys[i].1 && answers[i].seed == keys[i].2)
    && (forall i :: 0 <= i < |keys| ==> Carries(if answers[i].reused then traces else traces[old0..], keys[i], answers[i].id))
    && (forall i, j :: 0 <= i < j < |keys| && !answers[i].reused && !answers[j].reused ==> keys[i] != keys[j])
    && (forall t :: t in traces[old0..] ==> exists i :: 0 <= i < |keys| && keys[i] == KeyOf(t) && !answers[i].reused)
  }

  /** The first request for a key. */
  lemma FirstRequest(existing: map<Key, Trace>, keys: seq<Key>, k: Key) returns (i: nat)
    requires k in keys && k !in existing
    ensures i < |keys| && keys[i] == k && First(existing, map[], keys, i)
  {
    var n := |keys| - 1;
    if k in keys[..n] {
      i := FirstRequest(existing, keys[..n], k);
      assert keys[..n][..i] == keys[..i];
    } else {
      i := n;
    }
  }

  lemma AnsweredCarries(existing: map<Key, Trace>, stored: seq<Trace>, uuid: nat -> string, plan: Plan,
                        k: Key, p: Prepared, first: bool)
    requires FromStore(existing, stored) && PlanRight(existing, uuid, plan)
    requires Names(existing, plan.seen, k, p, first) && (first ==> k !in existing)
    ensures Carries(if p.reused then stored + plan.added else plan.added, k, p.id)
  {
    if k in existing {
      assert existing[k] in stored + plan.added;
    } else {
      var i :| 0 <= i < |plan.added| && KeyOf(plan.added[i]) == k;
      assert plan.added[i] in plan.added && plan.added[i] in stored + plan.added;
    }
  }

  lemma AnswersTold(existing: map<Key, Trace>, stored: seq<Trace>, uuid: nat -> string, plan: Plan,
                    keys: seq<Key>, answers: seq<Prepared>)
    requires FromStore(existing, stored) && PlanRight(existing, uuid, plan)
    requires Answered(existing, map[], plan.seen, keys, answers)
    ensures Told(stored + plan.added, |stored|, keys, answers)
  {
    var all := stored + plan.added;
    assert all[|stored|..] == plan.added;
    forall i | 0 <= i < |keys|
      ensures Carries(if answers[i].reused then all else plan.added, keys[i], answers[i].id)
    {
      AnsweredCarries(existing, stored, uuid, plan, keys[i], answers[i], First(existing, map[], keys, i));
    }
    forall i, j | 0 <= i < j < |keys| && !answers[i].reused && !answers[j].reused
      ensures keys[i] != keys[j]
    {
      assert First(existing, map[], keys, j) && keys[..j][i] == keys[i];
    }
    forall t | t in plan.added
      ensures exists i :: 0 <= i < |keys| && keys[i] == KeyOf(t) && !answers[i].reused
    {
      var i := FirstRequest(existing, keys, KeyOf(t));
      assert Names(existing, plan.seen, keys[i], answers[i], First(existing, map[], keys, i));
    }
  }
}
