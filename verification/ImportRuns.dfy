// Two imports that overtake each other, step by step: what Imports says can go wrong does.
module ImportRuns {
  import opened Imports
  import opened Intake
  import opened IntakeLinking
  import opened IntakeTraces
  import opened Sequences
  import opened Wrappers

  const WALLET := "w"
  const CHAIN := "TRON"

  /** A complaint that names the one wallet. */
  function Naming(ack: string): Item {
    Item(ack, [Entry(WALLET, true, Some(CHAIN), [], false)])
  }

  lemma NamedWallet(ack: string, caseId: string)
    ensures Values(Naming(ack).entries) == [WALLET]
    ensures Seeds(caseId, Naming(ack).entries) == [(caseId, CHAIN, WALLET)]
  {
    var e := Entry(WALLET, true, Some(CHAIN), [], false);
    assert [e][..0] == [];
    assert Values([]) == [] && Seeds(caseId, []) == [];
    assert SeedChains(e) == [CHAIN];
    assert EntryKeys(caseId, e) == [(caseId, CHAIN, WALLET)];
  }

  const EMPTY := Store(map[], map[], [], [])
  /** Another import has stored complaint R with that wallet, in its own case. */
  const RIVAL := Store(map["r" := 5], map["R" := Some("r")], [Link(WALLET, "R", "r")], [])

  /** The import of C reads the empty store and commits after that of R. */
  function Overtaking(): Rivals {
    Rivals(k => if k == 0 then EMPTY else RIVAL, k => RIVAL)
  }

  lemma OvertakingRelies(newCase: nat -> string, newTrace: nat -> string)
    requires NewCaseIds(RIVAL.cases, newCase) && NewTraceIds([], newTrace)
    ensures Rely(EMPTY, Overtaking(), newCase, newTrace)
  {
    assert Consistent(EMPTY) && Consistent(RIVAL);
    hide Consistent, NewCaseIds, NewTraceIds;
    assert Later(EMPTY, EMPTY) && Later(EMPTY, RIVAL) && Later(RIVAL, RIVAL);
  }

  /** It commits at once, as no number clashes, and its complaint gets a case of its own beside R's. */
  lemma OvertakenRun(batchStart: int, newCase: nat -> string, newTrace: nat -> string)
    requires NewCaseIds(RIVAL.cases, newCase) && NewTraceIds([], newTrace)
    ensures Rely(EMPTY, Overtaking(), newCase, newTrace) && !Clashes(RIVAL.complaints, [Naming("C")])
    ensures var placed := PlaceAll(EMPTY.links, EMPTY.cases, [Naming("C")], batchStart, newCase);
      placed[0].created && placed[0].caseId != "r" && !InEarliest(RIVAL, [Naming("C")], placed, 0)
  {
    hide PlaceAll, Rely, Shares;
    OvertakingRelies(newCase, newTrace);
    var items := [Naming("C")];
    var placed := PlaceAll(EMPTY.links, EMPTY.cases, items, batchStart, newCase);
    JoinsEarliest(EMPTY.links, EMPTY.cases, items, batchStart, newCase, 0);
    forall m
      ensures !Shares(EMPTY.links, EMPTY.cases, items[..0], placed[..0], items[0], m)
    {
      NobodyShares(items[0], m);
      assert items[..0] == [] && placed[..0] == [];
    }
    NamedWallet("C", "r");
    assert Consistent(EMPTY) && Later(EMPTY, RIVAL);
    EarliestAsMetIff(EMPTY, RIVAL, items, batchStart, newCase, 0);
    assert RIVAL.links[0..] == RIVAL.links && RIVAL.links[0] in RIVAL.links;
    assert RivalLink(EMPTY, RIVAL, items, 0, RIVAL.links[0]);
  }

  lemma NobodyShares(it: Item, m: Match)
    ensures !Shares(EMPTY.links, EMPTY.cases, [], [], it, m)
  {
  }

  /** Complaint A holds the wallet, in case k. */
  const SHARED := Store(map["k" := 5], map["A" := Some("k")], [Link(WALLET, "A", "k")], [])

  const JOINED := Placement("k", 5, false, ["k"])

  /** A store after one more complaint joined case k, with trace id for the wallet. */
  function Joining(met: Store, ack: string, id: string): Store {
    Store(met.cases, met.complaints[ack := Some("k")], met.links + [Link(WALLET, ack, "k")], met.traces + [Trace(id, "k", CHAIN, WALLET, true)])
  }

  /** Any import that read that store puts such a complaint there. */
  lemma JoinsShared(ack: string, batchStart: int, newCase: nat -> string)
    ensures PlaceAll(SHARED.links, SHARED.cases, [Naming(ack)], batchStart, newCase) == [JOINED]
  {
    hide Values, Gather;
    var items := [Naming(ack)];
    assert items[..0] == [];
    assert PlaceAll(SHARED.links, SHARED.cases, [], batchStart, newCase) == [];
    NamedWallet(ack, "k");
    KnownThere();
    assert CaseIds([Match("k", 5, "A")]) == ["k"];
    assert ["k"][..0] == [];
    assert Distinct(["k"]) == ["k"];
    assert Place([Match("k", 5, "A")], newCase(0), batchStart) == JOINED;
    PlacedAt(SHARED.links, SHARED.cases, items, batchStart, newCase, 0);
  }

  lemma KnownThere()
    ensures Gather(SHARED.links, SHARED.cases, [], [], [WALLET]) == [Match("k", 5, "A")]
  {
    var l := Link(WALLET, "A", "k");
    assert [l][..0] == [] && [WALLET][..0] == [];
    assert StoredMatches([], SHARED.cases, WALLET) == [];
    assert StoredMatches([l], SHARED.cases, WALLET) == [Match("k", 5, "A")];
    assert Gather(SHARED.links, SHARED.cases, [], [], []) == [];
  }

  lemma LaterJoining(met: Store, ack: string, id: string)
    requires Later(SHARED, met) && met.cases == SHARED.cases && ack !in met.complaints && forall t :: t in met.traces ==> t.id != id
    ensures Later(SHARED, Joining(met, ack, id))
  {
  }

  lemma RowsThere(met: Store, ack: string, id: string)
    requires met.cases == SHARED.cases && ack !in met.complaints
    ensures var after := Joining(met, ack, id);
      && CasesGrow(met.cases, [JOINED], after.cases)
      && ComplaintsGrow(met.complaints, [Naming(ack)], [JOINED], after.complaints)
      && after.links == met.links + NewLinks([Naming(ack)], [JOINED])
  {
    NamedWallet(ack, "k");
    hide Values;
    assert [Naming(ack)][..0] == [] && [JOINED][..0] == [];
    assert NewLinks([], []) == [];
    assert LinksOf(ack, "k", [WALLET]) == [Link(WALLET, ack, "k")];
    assert NewLinks([Naming(ack)], [JOINED]) == [Link(WALLET, ack, "k")];
  }

  lemma SeedsThere(traces: seq<Trace>, ack: string)
    requires HasKey(traces, ("k", CHAIN, WALLET))
    ensures SeedsTraced(traces, [JOINED], [Naming(ack)])
  {
    hide HasKey;
    assert SeedChains(Entry(WALLET, true, Some(CHAIN), [], false)) == [CHAIN];
  }

  /** What the import of such a complaint commits, after whatever others have joined that case meanwhile. */
  lemma CommitsThere(met: Store, ack: string, id: string)
    requires Later(SHARED, met) && met.cases == SHARED.cases && ack !in met.complaints && forall t :: t in met.traces ==> t.id != id
    ensures Committed(SHARED, met, Joining(met, ack, id), [Naming(ack)], [JOINED], [[Prepared(id, CHAIN, WALLET, false)]])
  {
    hide Values, Seeds, CasesGrow, ComplaintsGrow, NewLinks, SeedsTraced, Told, AddsNoTwin, NoRivalTwin, HasKey, AllSeeds, Consistent, Flat;
    LaterJoining(met, ack, id);
    RowsThere(met, ack, id);
    NamedWallet(ack, "k");
    AsksThere(ack);
    FlatOfOne(Prepared(id, CHAIN, WALLET, false));
    TracesThere(met, id);
    SeedsThere(Joining(met, ack, id).traces, ack);
    ToldThere(met.traces, id);
  }

  lemma FlatOfOne(p: Prepared)
    ensures Flat([[p]]) == [p]
  {
    assert [[p]][..0] == [] && Flat([]) == [];
  }

  lemma ToldThere(traces: seq<Trace>, id: string)
    ensures Told(traces + [Trace(id, "k", CHAIN, WALLET, true)], |traces|, [("k", CHAIN, WALLET)], [Prepared(id, CHAIN, WALLET, false)])
  {
    var t := Trace(id, "k", CHAIN, WALLET, true);
    var all, keys: seq<Key>, answers := traces + [t], [("k", CHAIN, WALLET)], [Prepared(id, CHAIN, WALLET, false)];
    assert all[|traces|..] == [t];
    assert t in all[|traces|..] && KeyOf(t) == keys[0];
    assert Carries(all[|traces|..], keys[0], answers[0].id);
  }

  lemma TracesThere(met: Store, id: string)
    requires |SHARED.traces| <= |met.traces|
    ensures var all := met.traces + [Trace(id, "k", CHAIN, WALLET, true)];
      && HasKey(all, ("k", CHAIN, WALLET))
      && (AddsNoTwin(all, |met.traces|) <==> NoRivalTwin(SHARED, met, [("k", CHAIN, WALLET)]))
  {
    var t, k: Key := Trace(id, "k", CHAIN, WALLET, true), ("k", CHAIN, WALLET);
    var all := met.traces + [t];
    assert KeyOf(all[|met.traces|]) == k;
    assert met.traces[0..] == met.traces;
    assert forall q: Key :: Missed(SHARED.traces, [k], q) <==> q == k;
    if u :| u in met.traces && KeyOf(u) == k {
      TwinFound(met.traces, [t], u, t);
    } else {
      forall i, j | 0 <= i < j < |all| && |met.traces| <= j
        ensures KeyOf(all[i]) != KeyOf(all[j])
      {
        assert all[i] == met.traces[i] && all[i] in met.traces;
      }
    }
  }

  /** Two imports of such complaints that both read that store leave two traces for its wallet. */
  lemma TwinRun()
    ensures var first := Joining(SHARED, "B", "t1");
      var second := Joining(first, "C", "t2");
      && Committed(SHARED, SHARED, first, [Naming("B")], [JOINED], [[Prepared("t1", CHAIN, WALLET, false)]])
      && Committed(SHARED, first, second, [Naming("C")], [JOINED], [[Prepared("t2", CHAIN, WALLET, false)]])
      && !AddsNoTwin(second.traces, |first.traces|)
  {
    var first := Joining(SHARED, "B", "t1");
    var second := Joining(first, "C", "t2");
    assert Later(SHARED, SHARED);
    hide Committed, AddsNoTwin, Consistent;
    CommitsThere(SHARED, "B", "t1");
    LaterJoining(SHARED, "B", "t1");
    CommitsThere(first, "C", "t2");
    AsksThere("B");
    AsksThere("C");
    BothMakeIt(SHARED, SHARED, first, second, [Naming("B")], [JOINED], [[Prepared("t1", CHAIN, WALLET, false)]],
               [Naming("C")], [JOINED], [[Prepared("t2", CHAIN, WALLET, false)]], ("k", CHAIN, WALLET));
  }

  lemma AsksThere(ack: string)
    ensures AllSeeds([Naming(ack)], CasesOf([JOINED])) == [("k", CHAIN, WALLET)]
  {
    NamedWallet(ack, "k");
    assert [Naming(ack)][..0] == [] && CasesOf([JOINED]) == ["k"] && ["k"][..0] == [];
    assert AllSeeds([], []) == [];
  }
}
