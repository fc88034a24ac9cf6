// apps/api/src/intake/service.ts and types.ts: what a committed import stored, said of the complaints and their entries
// themselves, without the lists of keys and links the loops build.
module ImportLaws {
  import opened IntakeLinking
  import opened IntakeTraces
  import opened Intake
  import opened Imports
  import opened Sequences
  import opened Wrappers

  // ---- which traces are asked for ----

  /** e is an address to be traced on chain c: resolved to it, or still open to it and known to have activity. */
  ghost predicate TracedOn(e: Entry, c: string) {
    e.isAddress && (e.chain == Some(c) || (e.chain.None? && !e.noActivity && c in e.candidates))
  }

  ghost predicate AsksFor(it: Item, c: string, v: string) {
    exists e :: e in it.entries && e.value == v && TracedOn(e, c)
  }

  /** Some complaint placed in case k.0 asks for the trace of k. */
  ghost predicate Wanted(items: seq<Item>, placed: seq<Placement>, k: Key)
    requires |placed| == |items|
  {
    exists n :: 0 <= n < |items| && placed[n].caseId == k.0 && AsksFor(items[n], k.1, k.2)
  }

  lemma SeedChainsIff(e: Entry, c: string)
    ensures c in SeedChains(e) <==> TracedOn(e, c)
  {
  }

  lemma EntryKeysIff(caseId: string, e: Entry, k: Key)
    ensures k in EntryKeys(caseId, e) <==> k.0 == caseId && k.2 == e.value && TracedOn(e, k.1)
  {
    hide SeedChains, TracedOn;
    SeedChainsIff(e, k.1);
    var keys, chains := EntryKeys(caseId, e), SeedChains(e);
    assert forall j :: 0 <= j < |chains| ==> keys[j] == (caseId, chains[j], e.value);
    if k.0 == caseId && k.2 == e.value && k.1 in chains {
      var j :| 0 <= j < |chains| && chains[j] == k.1;
      assert keys[j] == k;
    }
  }

  lemma {:induction false} SeedsIff(caseId: string, it: Item, entries: seq<Entry>, k: Key)
    requires it.entries == entries
    ensures k in Seeds(caseId, entries) <==> k.0 == caseId && AsksFor(it, k.1, k.2)
    decreases |entries|
  {
    hide TracedOn, EntryKeys;
    if entries != [] {
      var n := |entries| - 1;
      SeedsIff(caseId, it.(entries := entries[..n]), entries[..n], k);
      EntryKeysIff(caseId, entries[n], k);
      assert forall e :: e in entries <==> e in entries[..n] || e == entries[n];
    }
  }

  lemma {:induction false} WantedIff(items: seq<Item>, placed: seq<Placement>, k: Key)
    requires |placed| == |items|
    ensures k in AllSeeds(items, CasesOf(placed)) <==> Wanted(items, placed, k)
  {
    hide Seeds, AsksFor;
    if items != [] {
      var n := |items| - 1;
      WantedIff(items[..n], placed[..n], k);
      assert CasesOf(placed)[..n] == CasesOf(placed[..n]);
      SeedsIff(placed[n].caseId, items[n], items[n].entries, k);
      assert forall i :: 0 <= i < n ==> items[..n][i] == items[i] && placed[..n][i] == placed[i];
    }
  }

  // ---- the answers of one complaint ----

  lemma {:induction false} AnsweredInTurn(items: seq<Item>, placed: seq<Placement>, prepared: seq<seq<Prepared>>, good: (Key, Prepared) -> bool)
    requires |placed| == |items| == |prepared|
    requires forall n :: 0 <= n < |items| ==> |prepared[n]| == |Seeds(placed[n].caseId, items[n].entries)|
    requires |Flat(prepared)| == |AllSeeds(items, CasesOf(placed))|
    requires forall i :: 0 <= i < |Flat(prepared)| ==> good(AllSeeds(items, CasesOf(placed))[i], Flat(prepared)[i])
    ensures forall n, j :: 0 <= n < |items| && 0 <= j < |prepared[n]| ==> good(Seeds(placed[n].caseId, items[n].entries)[j], prepared[n][j])
  {
    hide Seeds;
    if items != [] {
      var n := |items| - 1;
      assert CasesOf(placed)[..n] == CasesOf(placed[..n]);
      var before, flat := AllSeeds(items[..n], CasesOf(placed[..n])), Flat(prepared[..n]);
      var last := Seeds(placed[n].caseId, items[n].entries);
      assert AllSeeds(items, CasesOf(placed)) == before + last && Flat(prepared) == flat + prepared[n];
      assert |flat| == |before|;
      forall i | 0 <= i < |flat|
        ensures good(before[i], flat[i])
      {
        assert AllSeeds(items, CasesOf(placed))[i] == before[i] && Flat(prepared)[i] == flat[i];
      }
      AnsweredInTurn(items[..n], placed[..n], prepared[..n], good);
      forall j | 0 <= j < |prepared[n]|
        ensures good(last[j], prepared[n][j])
      {
        assert AllSeeds(items, CasesOf(placed))[|before| + j] == last[j] && Flat(prepared)[|flat| + j] == prepared[n][j];
      }
    }
  }

  /** p names a stored trace of this case, with its chain and seed. */
  ghost predicate StoredAs(traces: seq<Trace>, caseId: string, p: Prepared) {
    exists t :: t in traces && t.id == p.id && KeyOf(t) == (caseId, p.chain, p.seed)
  }

  /**
    * A committed import: every trace a complaint asks for is stored, every new trace is one that some complaint asked for, and
    * each complaint is told exactly the traces it asked for, by the ids they are stored under.
    */
  lemma AskedExactly(read: Store, met: Store, after: Store, items: seq<Item>, placed: seq<Placement>, prepared: seq<seq<Prepared>>)
    requires |placed| == |items| && Committed(read, met, after, items, placed, prepared)
    ensures forall k :: Wanted(items, placed, k) ==> HasKey(after.traces, k)
    ensures |met.traces| <= |after.traces| && forall t :: t in after.traces[|met.traces|..] ==> Wanted(items, placed, KeyOf(t))
    ensures |prepared| == |items| && forall n, p :: 0 <= n < |items| && p in prepared[n] ==> StoredAs(after.traces, placed[n].caseId, p)
    ensures forall n, c, v :: 0 <= n < |items| ==>
      ((exists p :: p in prepared[n] && p.chain == c && p.seed == v) <==> AsksFor(items[n], c, v))
  {
    hide Wanted, AsksFor, StoredAs, Seeds, AllSeeds, Flat, HasKey, AddsNoTwin, NoRivalTwin, NewLinks, CasesGrow, ComplaintsGrow, Consistent,
      SeedsTraced;
    forall k | Wanted(items, placed, k)
      ensures HasKey(after.traces, k)
    {
      WantedIff(items, placed, k);
      var j := AskedIsStored(read, met, after, items, placed, prepared, k);
      KeyFound(after.traces, k, j);
    }
    var keys := AllSeeds(items, CasesOf(placed));
    forall t | t in after.traces[|met.traces|..]
      ensures Wanted(items, placed, KeyOf(t))
    {
      WantedIff(items, placed, KeyOf(t));
    }
    forall n | 0 <= n < |items|
      ensures forall p :: p in prepared[n] ==> StoredAs(after.traces, placed[n].caseId, p)
      ensures forall c, v :: (exists p :: p in prepared[n] && p.chain == c && p.seed == v) <==> AsksFor(items[n], c, v)
    {
      ToldItsOwn(read, met, after, items, placed, prepared, n);
    }
  }

  lemma KeyFound(traces: seq<Trace>, k: Key, j: nat)
    requires j < |traces| && KeyOf(traces[j]) == k
    ensures HasKey(traces, k)
  {
  }

  ghost predicate Named(traces: seq<Trace>, k: Key, p: Prepared) {
    p.chain == k.1 && p.seed == k.2 && Carries(traces, k, p.id)
  }

  lemma ToldItsOwn(read: Store, met: Store, after: Store, items: seq<Item>, placed: seq<Placement>, prepared: seq<seq<Prepared>>, n: nat)
    requires |placed| == |items| && Committed(read, met, after, items, placed, prepared) && n < |items|
    ensures |prepared| == |items| && forall p :: p in prepared[n] ==> StoredAs(after.traces, placed[n].caseId, p)
    ensures forall c, v :: (exists p :: p in prepared[n] && p.chain == c && p.seed == v) <==> AsksFor(items[n], c, v)
  {
    hide AsksFor, Seeds, AllSeeds, Flat, AddsNoTwin, NoRivalTwin, NewLinks, CasesGrow, ComplaintsGrow, Consistent, SeedsTraced;
    var keys, answers := AllSeeds(items, CasesOf(placed)), Flat(prepared);
    forall i | 0 <= i < |answers|
      ensures Named(after.traces, keys[i], answers[i])
    {
      assert Carries(if answers[i].reused then after.traces else after.traces[|met.traces|..], keys[i], answers[i].id);
    }
    AnsweredInTurn(items, placed, prepared, (k, p) => Named(after.traces, k, p));
    var own := Seeds(placed[n].caseId, items[n].entries);
    forall k
      ensures k in own <==> k.0 == placed[n].caseId && AsksFor(items[n], k.1, k.2)
    {
      SeedsIff(placed[n].caseId, items[n], items[n].entries, k);
    }
    NamedEach(after.traces, placed[n].caseId, items[n], own, prepared[n]);
  }

  lemma NamedEach(traces: seq<Trace>, caseId: string, it: Item, own: seq<Key>, answers: seq<Prepared>)
    requires |own| == |answers| && forall j :: 0 <= j < |own| ==> Named(traces, own[j], answers[j])
    requires forall k :: k in own <==> k.0 == caseId && AsksFor(it, k.1, k.2)
    ensures forall p :: p in answers ==> StoredAs(traces, caseId, p)
    ensures forall c, v :: (exists p :: p in answers && p.chain == c && p.seed == v) <==> AsksFor(it, c, v)
  {
    hide AsksFor;
    forall j | 0 <= j < |own|
      ensures own[j] == (caseId, answers[j].chain, answers[j].seed) && StoredAs(traces, caseId, answers[j])
    {
      assert own[j] in own && Named(traces, own[j], answers[j]);
    }
    forall c, v
      ensures (exists p :: p in answers && p.chain == c && p.seed == v) <==> AsksFor(it, c, v)
    {
      if p :| p in answers && p.chain == c && p.seed == v {
        var j :| 0 <= j < |answers| && answers[j] == p;
        assert own[j] in own;
      }
      if AsksFor(it, c, v) {
        assert (caseId, c, v) in own;
        var j :| 0 <= j < |own| && own[j] == (caseId, c, v);
        assert answers[j] in answers;
      }
    }
  }

  /** A transaction hash is never a seed: a value no complaint of the batch holds as an address gets no new trace. */
  lemma HashIsNoSeed(read: Store, met: Store, after: Store, items: seq<Item>, placed: seq<Placement>, prepared: seq<seq<Prepared>>, v: string)
    requires |placed| == |items| && Committed(read, met, after, items, placed, prepared)
    requires forall n, e :: 0 <= n < |items| && e in items[n].entries && e.value == v ==> !e.isAddress
    ensures |met.traces| <= |after.traces| && forall t :: t in after.traces[|met.traces|..] ==> t.seed != v
  {
    hide Committed;
    AskedExactly(read, met, after, items, placed, prepared);
  }

  // ---- links and rows ----

  /** The wallet rows of a batch: one complaint's number and case for each address it holds, and no others. */
  lemma {:induction false} LinksIff(items: seq<Item>, placed: seq<Placement>, l: Link)
    requires |placed| == |items|
    ensures l in NewLinks(items, placed) <==>
      exists n :: 0 <= n < |items| && Holds(items[n], l.address) && l.ackNo == items[n].ackNo && l.caseId == placed[n].caseId
  {
    hide Holds, Values;
    if items != [] {
      var n := |items| - 1;
      LinksIff(items[..n], placed[..n], l);
      assert forall i :: 0 <= i < n ==> items[..n][i] == items[i] && placed[..n][i] == placed[i];
      ValuesAreHeld(items[n], items[n].entries, l.address);
      LinksOfIff(items[n].ackNo, placed[n].caseId, Values(items[n].entries), l);
    }
  }

  lemma LinksOfIff(ackNo: string, caseId: string, values: seq<string>, l: Link)
    ensures l in LinksOf(ackNo, caseId, values) <==> l.address in values && l.ackNo == ackNo && l.caseId == caseId
  {
    var links := LinksOf(ackNo, caseId, values);
    if l.address in values && l.ackNo == ackNo && l.caseId == caseId {
      var i :| 0 <= i < |values| && values[i] == l.address;
      assert links[i] == l;
    }
  }

  /** Row i of the file is a readable complaint with this number. */
  predicate RowHas(inputs: seq<Input>, i: nat, ack: string) {
    i < |inputs| && inputs[i].Some? && inputs[i].value.ackNo == ack
  }

  /**
    * Rows with one acknowledgement number: when it was stored, the first is a stored duplicate, else the first becomes the
    * complaint, and no other row does; all later ones repeat it. Rows that could not be read are invalid, and no others.
    */
  lemma OnePerNumber(complaints: map<string, Option<string>>, inputs: seq<Input>, statuses: seq<Status>, pending: seq<nat>,
                     dupCases: set<string>, first: nat, ack: string)
    requires Sorted(complaints, inputs, statuses, pending, dupCases)
    requires RowHas(inputs, first, ack) && forall j :: 0 <= j < first ==> !RowHas(inputs, j, ack)
    ensures first in pending <==> ack !in complaints
    ensures statuses[first] == if ack in complaints then DuplicateStored else Created
    ensures forall j: nat :: RowHas(inputs, j, ack) && j != first ==> statuses[j] == DuplicateInFile && j !in pending
    ensures forall j :: 0 <= j < |inputs| ==> (statuses[j] == Invalid <==> inputs[j].None?)
  {
    forall j: nat | RowHas(inputs, j, ack) && j != first
      ensures SeenEarlier(inputs, j)
    {
      assert RowHas(inputs, first, ack);
    }
    if SeenEarlier(inputs, first) {
      var j :| 0 <= j < first && inputs[j].Some? && inputs[j].value.ackNo == ack;
      assert RowHas(inputs, j, ack);
      assert false;
    }
  }
}
