// apps/api/src/intake/service.ts, the first half of persist: which case a complaint joins.
module IntakeLinking {
  import opened Sequences
  import opened Wrappers

  /** chain is None while several chains are possible. */
  datatype Entry = Entry(value: string, isAddress: bool, chain: Option<string>, candidates: seq<string>, noActivity: bool)

  datatype Item = Item(ackNo: string, entries: seq<Entry>)

  /** A stored wallet row of a complaint that has a case. */
  datatype Link = Link(address: string, ackNo: string, caseId: string)

  datatype Match = Match(caseId: string, rank: int, ackNo: string)

  /** The case an item goes to; linked lists all cases it shares a wallet with. */
  datatype Placement = Placement(caseId: string, rank: int, created: bool, linked: seq<string>)

  function Values(entries: seq<Entry>): seq<string> {
    if entries == [] then []
    else
      var rest, e := Values(entries[..|entries| - 1]), entries[|entries| - 1];
      if e.isAddress then rest + [e.value] else rest
  }

  function CaseIds(ms: seq<Match>): (r: seq<string>)
    ensures |r| == |ms| && forall i :: 0 <= i < |ms| ==> r[i] == ms[i].caseId
  {
    seq(|ms|, i requires 0 <= i < |ms| => ms[i].caseId)
  }

  /** reduce with b.rank < a.rank ? b : a */
  function Earliest(ms: seq<Match>): Match
    requires ms != []
  {
    if |ms| == 1 then ms[0]
    else
      var a, b := Earliest(ms[..|ms| - 1]), ms[|ms| - 1];
      if b.rank < a.rank then b else a
  }

  function Place(ms: seq<Match>, newId: string, rank: int): Placement {
    if ms == [] then Placement(newId, rank, true, [])
    else Placement(Earliest(ms).caseId, Earliest(ms).rank, false, Distinct(CaseIds(ms)))
  }

  function RankOf(cases: map<string, int>, caseId: string): int {
    if caseId in cases then cases[caseId] else 0
  }

  ghost function StoredMatches(links: seq<Link>, cases: map<string, int>, v: string): seq<Match> {
    if links == [] then []
    else
      var rest, l := StoredMatches(links[..|links| - 1], cases, v), links[|links| - 1];
      if l.address == v then rest + [Match(l.caseId, RankOf(cases, l.caseId), l.ackNo)] else rest
  }

  /** m once for every occurrence of v. */
  ghost function Repeat(values: seq<string>, v: string, m: Match): seq<Match> {
    if values == [] then []
    else
      var rest := Repeat(values[..|values| - 1], v, m);
      if values[|values| - 1] == v then rest + [m] else rest
  }

  function MatchOf(it: Item, p: Placement): Match {
    Match(p.caseId, p.rank, it.ackNo)
  }

  /** The complaints known to hold wallet v: the stored ones, then those placed so far. */
  ghost function Known(links: seq<Link>, cases: map<string, int>, items: seq<Item>, placed: seq<Placement>, v: string): seq<Match>
    requires |placed| == |items|
  {
    if items == [] then StoredMatches(links, cases, v)
    else
      var n := |items| - 1;
      Known(links, cases, items[..n], placed[..n], v) + Repeat(Values(items[n].entries), v, MatchOf(items[n], placed[n]))
  }

  ghost function Gather(links: seq<Link>, cases: map<string, int>, items: seq<Item>, placed: seq<Placement>, values: seq<string>): seq<Match>
    requires |placed| == |items|
  {
    if values == [] then []
    else Gather(links, cases, items, placed, values[..|values| - 1]) + Known(links, cases, items, placed, values[|values| - 1])
  }

  ghost function PlaceAll(links: seq<Link>, cases: map<string, int>, items: seq<Item>, batchStart: int, uuid: nat -> string): (r: seq<Placement>)
    ensures |r| == |items|
  {
    if items == [] then []
    else
      var n := |items| - 1;
      var before := PlaceAll(links, cases, items[..n], batchStart, uuid);
      before + [Place(Gather(links, cases, items[..n], before, Values(items[n].entries)), uuid(n), batchStart + n)]
  }

  // ---- the loops ----

  function At(known: map<string, seq<Match>>, v: string): seq<Match> {
    if v in known then known[v] else []
  }

  ghost predicate KnowsAll(known: map<string, seq<Match>>, addrs: set<string>, links: seq<Link>, cases: map<string, int>,
                           items: seq<Item>, placed: seq<Placement>)
    requires |placed| == |items|
  {
    forall v :: v in addrs ==> At(known, v) == Known(links, cases, items, placed, v)
  }

  method Addresses(items: seq<Item>) returns (addrs: set<string>)
    ensures forall n :: 0 <= n < |items| ==> forall v :: v in Values(items[n].entries) ==> v in addrs
  {
    addrs := {};
    for n := 0 to |items|
      invariant forall k :: 0 <= k < n ==> forall v :: v in Values(items[k].entries) ==> v in addrs
    {
      addrs := addrs + set v | v in Values(items[n].entries);
    }
  }

  method LoadKnown(links: seq<Link>, cases: map<string, int>, addrs: set<string>) returns (known: map<string, seq<Match>>)
    ensures forall v :: v in addrs ==> At(known, v) == StoredMatches(links, cases, v)
  {
    known := map[];
    for i := 0 to |links|
      invariant forall v :: v in addrs ==> At(known, v) == StoredMatches(links[..i], cases, v)
    {
      var l := links[i];
      assert links[..i + 1][..i] == links[..i];
      if l.address in addrs {
        known := known[l.address := At(known, l.address) + [Match(l.caseId, RankOf(cases, l.caseId), l.ackNo)]];
      }
    }
    assert links[..|links|] == links;
  }

  method Lookup(known: map<string, seq<Match>>, values: seq<string>, ghost addrs: set<string>, ghost links: seq<Link>,
                ghost cases: map<string, int>, ghost items: seq<Item>, ghost placed: seq<Placement>)
    returns (matches: seq<Match>)
    requires |placed| == |items| && KnowsAll(known, addrs, links, cases, items, placed)
    requires forall v :: v in values ==> v in addrs
    ensures matches == Gather(links, cases, items, placed, values)
  {
    hide Known;
    matches := [];
    for i := 0 to |values|
      invariant matches == Gather(links, cases, items, placed, values[..i])
    {
      assert values[..i + 1][..i] == values[..i];
      matches := matches + At(known, values[i]);
    }
    assert values[..|values|] == values;
  }

  method Remember(known0: map<string, seq<Match>>, values: seq<string>, m: Match) returns (known: map<string, seq<Match>>)
    ensures forall v :: At(known, v) == At(known0, v) + Repeat(values, v, m)
  {
    hide At, Repeat;
    known := known0;
    RepeatNone(m);
    for i := 0 to |values|
      invariant forall v :: At(known, v) == At(known0, v) + Repeat(values[..i], v, m)
    {
      RememberOne(known0, known, values, i, m);
      known := known[values[i] := At(known, values[i]) + [m]];
    }
    assert values[..|values|] == values;
  }

  lemma RepeatNone(m: Match)
    ensures forall v :: Repeat([], v, m) == []
  {
  }

  lemma RememberOne(known0: map<string, seq<Match>>, known: map<string, seq<Match>>, values: seq<string>, i: nat, m: Match)
    requires i < |values| && forall v :: At(known, v) == At(known0, v) + Repeat(values[..i], v, m)
    ensures forall v :: At(known[values[i] := At(known, values[i]) + [m]], v) == At(known0, v) + Repeat(values[..i + 1], v, m)
  {
    hide Repeat, At;
    var after := known[values[i] := At(known, values[i]) + [m]];
    forall v
      ensures At(after, v) == At(known0, v) + Repeat(values[..i + 1], v, m)
    {
      AtAfter(known, values[i], m, v);
      RepeatMore(values, i, v, m);
      Regroup(At(known0, v), Repeat(values[..i], v, m), if values[i] == v then [m] else []);
    }
  }

  lemma AtAfter(known: map<string, seq<Match>>, value: string, m: Match, v: string)
    ensures At(known[value := At(known, value) + [m]], v) == At(known, v) + if value == v then [m] else []
  {
  }

  lemma Regroup<T>(a: seq<T>, b: seq<T>, c: seq<T>)
    ensures (a + b) + c == a + (b + c)
  {
  }

  lemma RepeatMore(values: seq<string>, i: nat, v: string, m: Match)
    requires i < |values|
    ensures Repeat(values[..i + 1], v, m) == Repeat(values[..i], v, m) + if values[i] == v then [m] else []
  {
    assert values[..i + 1][..i] == values[..i];
  }

  method LinkItems(links: seq<Link>, cases: map<string, int>, items: seq<Item>, batchStart: int, uuid: nat -> string)
    returns (placed: seq<Placement>)
    ensures placed == PlaceAll(links, cases, items, batchStart, uuid)
  {
    hide Known, Gather, Repeat, StoredMatches, Values, Place, PlaceAll, KnowsAll, At;
    var addrs := Addresses(items);
    var known := LoadKnown(links, cases, addrs);
    placed := [];
    KnownNone(links, cases, known, addrs, batchStart, uuid);
    for n := 0 to |items|
      invariant placed == PlaceAll(links, cases, items[..n], batchStart, uuid)
      invariant KnowsAll(known, addrs, links, cases, items[..n], placed)
    {
      var it := items[n];
      var values := Values(it.entries);
      var matches := Lookup(known, values, addrs, links, cases, items[..n], placed);
      var p := Place(matches, uuid(n), batchStart + n);
      PlacesOneMore(links, cases, items, n, batchStart, uuid);
      var more := Remember(known, values, MatchOf(it, p));
      KnowsOneMore(known, more, addrs, links, cases, items, n, placed, p);
      known := more;
      placed := placed + [p];
    }
    assert items[..|items|] == items;
  }

  lemma KnownNone(links: seq<Link>, cases: map<string, int>, known: map<string, seq<Match>>, addrs: set<string>, batchStart: int, uuid: nat -> string)
    requires forall v :: v in addrs ==> At(known, v) == StoredMatches(links, cases, v)
    ensures KnowsAll(known, addrs, links, cases, [], []) && PlaceAll(links, cases, [], batchStart, uuid) == []
  {
  }

  lemma PlacesOneMore(links: seq<Link>, cases: map<string, int>, items: seq<Item>, n: nat, batchStart: int, uuid: nat -> string)
    requires n < |items|
    ensures var before := PlaceAll(links, cases, items[..n], batchStart, uuid);
      PlaceAll(links, cases, items[..n + 1], batchStart, uuid) ==
      before + [Place(Gather(links, cases, items[..n], before, Values(items[n].entries)), uuid(n), batchStart + n)]
  {
    assert items[..n + 1][..n] == items[..n];
  }

  lemma KnowsOneMore(known: map<string, seq<Match>>, more: map<string, seq<Match>>, addrs: set<string>, links: seq<Link>,
                     cases: map<string, int>, items: seq<Item>, n: nat, placed: seq<Placement>, p: Placement)
    requires n < |items| && |placed| == n && KnowsAll(known, addrs, links, cases, items[..n], placed)
    requires forall v :: At(more, v) == At(known, v) + Repeat(Values(items[n].entries), v, MatchOf(items[n], p))
    ensures KnowsAll(more, addrs, links, cases, items[..n + 1], placed + [p])
  {
    hide Known, Values, Repeat, At;
    assert items[..n + 1] == items[..n] + [items[n]];
    forall v | v in addrs
      ensures At(more, v) == Known(links, cases, items[..n + 1], placed + [p], v)
    {
      KnownAdds(links, cases, items[..n], placed, items[n], p, v);
    }
  }

  lemma KnownAdds(links: seq<Link>, cases: map<string, int>, items: seq<Item>, placed: seq<Placement>, it: Item, p: Placement, v: string)
    requires |placed| == |items|
    ensures Known(links, cases, items + [it], placed + [p], v) ==
      Known(links, cases, items, placed, v) + Repeat(Values(it.entries), v, MatchOf(it, p))
  {
    assert (items + [it])[..|items|] == items && (placed + [p])[..|placed|] == placed;
  }

  // ---- the earliest case among all that share a wallet ----

  lemma {:induction false} EarliestIsFirstLeast(ms: seq<Match>) returns (k: nat)
    requires ms != []
    ensures k < |ms| && Earliest(ms) == ms[k]
    ensures forall j :: 0 <= j < |ms| ==> ms[k].rank <= ms[j].rank
    ensures forall j :: 0 <= j < k ==> ms[k].rank < ms[j].rank
  {
    if |ms| == 1 {
      k := 0;
    } else {
      k := EarliestIsFirstLeast(ms[..|ms| - 1]);
      if ms[|ms| - 1].rank < ms[k].rank {
        k := |ms| - 1;
      }
    }
  }

  lemma {:induction false} StoredExactly(links: seq<Link>, cases: map<string, int>, v: string)
    ensures forall m :: m in StoredMatches(links, cases, v) <==>
      exists l :: l in links && l.address == v && m == Match(l.caseId, RankOf(cases, l.caseId), l.ackNo)
  {
    if links != [] {
      var n := |links| - 1;
      StoredExactly(links[..n], cases, v);
      assert links == links[..n] + [links[n]];
    }
  }

  lemma {:induction false} RepeatExactly(values: seq<string>, v: string, m: Match)
    ensures forall x :: x in Repeat(values, v, m) <==> x == m && v in values
  {
    if values != [] {
      RepeatExactly(values[..|values| - 1], v, m);
      assert values == values[..|values| - 1] + [values[|values| - 1]];
    }
  }

  /** A complaint holds wallet v: one of its entries is that address. */
  ghost predicate Holds(it: Item, v: string) {
    exists e :: e in it.entries && e.isAddress && e.value == v
  }

  lemma {:induction false} ValuesAreHeld(it: Item, entries: seq<Entry>, v: string)
    requires it.entries == entries
    ensures v in Values(entries) <==> Holds(it, v)
    decreases |entries|
  {
    if entries != [] {
      var n := |entries| - 1;
      ValuesAreHeld(it.(entries := entries[..n]), entries[..n], v);
      assert entries == entries[..n] + [entries[n]];
      assert forall e :: e in entries <==> e in entries[..n] || e == entries[n];
    }
  }

  ghost predicate HeldEarlier(items: seq<Item>, placed: seq<Placement>, i: nat, v: string, m: Match) {
    i < |items| == |placed| && Holds(items[i], v) && m == MatchOf(items[i], placed[i])
  }

  ghost predicate Stored(links: seq<Link>, cases: map<string, int>, v: string, m: Match) {
    Link(v, m.ackNo, m.caseId) in links && m.rank == RankOf(cases, m.caseId)
  }

  lemma {:induction false} KnownExactly(links: seq<Link>, cases: map<string, int>, items: seq<Item>, placed: seq<Placement>, v: string, m: Match)
    requires |placed| == |items|
    ensures m in Known(links, cases, items, placed, v) <==>
      Stored(links, cases, v, m) || exists i: nat :: HeldEarlier(items, placed, i, v, m)
  {
    if items == [] {
      StoredExactly(links, cases, v);
      if Stored(links, cases, v, m) {
        assert Link(v, m.ackNo, m.caseId).address == v;
      }
    } else {
      var n := |items| - 1;
      KnownExactly(links, cases, items[..n], placed[..n], v, m);
      RepeatExactly(Values(items[n].entries), v, MatchOf(items[n], placed[n]));
      assert forall i: nat :: i < n ==> (HeldEarlier(items, placed, i, v, m) <==> HeldEarlier(items[..n], placed[..n], i, v, m));
      ValuesAreHeld(items[n], items[n].entries, v);
      assert HeldEarlier(items, placed, n, v, m) <==> v in Values(items[n].entries) && m == MatchOf(items[n], placed[n]);
    }
  }

  /** Complaint m shares wallet v with an item: it is stored, or earlier in the batch. */
  ghost predicate Shares(links: seq<Link>, cases: map<string, int>, items: seq<Item>, placed: seq<Placement>, it: Item, m: Match) {
    exists v :: Holds(it, v) && (Stored(links, cases, v, m) || exists i: nat :: HeldEarlier(items, placed, i, v, m))
  }

  lemma {:induction false} GatherExactly(links: seq<Link>, cases: map<string, int>, items: seq<Item>, placed: seq<Placement>,
                                         values: seq<string>, m: Match)
    requires |placed| == |items|
    ensures m in Gather(links, cases, items, placed, values) <==>
      exists v :: v in values && m in Known(links, cases, items, placed, v)
  {
    hide Known;
    if values != [] {
      var n := |values| - 1;
      GatherExactly(links, cases, items, placed, values[..n], m);
      assert values == values[..n] + [values[n]];
      if v :| v in values && m in Known(links, cases, items, placed, v) {
        assert v in values[..n] || v == values[n];
      }
      if m in Gather(links, cases, items, placed, values[..n]) {
        var v :| v in values[..n] && m in Known(links, cases, items, placed, v);
        assert v in values;
      }
      assert values[n] in values;
    }
  }

  lemma GatheredAreSharers(links: seq<Link>, cases: map<string, int>, items: seq<Item>, placed: seq<Placement>, it: Item, m: Match)
    requires |placed| == |items|
    ensures m in Gather(links, cases, items, placed, Values(it.entries)) <==> Shares(links, cases, items, placed, it, m)
  {
    hide Gather, Known, Values, Stored, HeldEarlier, Holds;
    GatherExactly(links, cases, items, placed, Values(it.entries), m);
    forall v
      ensures v in Values(it.entries) <==> Holds(it, v)
      ensures m in Known(links, cases, items, placed, v) <==>
        Stored(links, cases, v, m) || exists i: nat :: HeldEarlier(items, placed, i, v, m)
    {
      ValuesAreHeld(it, it.entries, v);
      KnownExactly(links, cases, items, placed, v, m);
    }
  }

  lemma {:induction false} PlacedAt(links: seq<Link>, cases: map<string, int>, items: seq<Item>, batchStart: int, uuid: nat -> string, n: nat)
    requires n < |items|
    ensures var before := PlaceAll(links, cases, items[..n], batchStart, uuid);
      && PlaceAll(links, cases, items, batchStart, uuid)[..n] == before
      && PlaceAll(links, cases, items, batchStart, uuid)[n] ==
         Place(Gather(links, cases, items[..n], before, Values(items[n].entries)), uuid(n), batchStart + n)
    decreases |items|
  {
    hide Gather, Place, Values;
    var k := |items| - 1;
    if n < k {
      PlacedAt(links, cases, items[..k], batchStart, uuid, n);
      assert items[..k][..n] == items[..n];
    }
  }

  /**
    * A complaint goes to the earliest case among all stored or earlier complaints that share a wallet with it,
    * and lists every one of those cases; only when there is none is a case opened for it.
    */
  lemma JoinsEarliest(links: seq<Link>, cases: map<string, int>, items: seq<Item>, batchStart: int, uuid: nat -> string, n: nat)
    requires n < |items|
    ensures var placed := PlaceAll(links, cases, items, batchStart, uuid);
      var p := placed[n];
      && (p.created <==> forall m :: !Shares(links, cases, items[..n], placed[..n], items[n], m))
      && (p.created ==> p == Placement(uuid(n), batchStart + n, true, []))
      && (!p.created ==> exists m :: Shares(links, cases, items[..n], placed[..n], items[n], m) && m.caseId == p.caseId && m.rank == p.rank)
      && (forall m :: Shares(links, cases, items[..n], placed[..n], items[n], m) ==> p.rank <= m.rank && m.caseId in p.linked)
      && (forall c :: c in p.linked ==> exists m :: Shares(links, cases, items[..n], placed[..n], items[n], m) && m.caseId == c)
  {
    hide Gather, Shares, Values, PlaceAll, Earliest;
    PlacedAt(links, cases, items, batchStart, uuid, n);
    var placed := PlaceAll(links, cases, items, batchStart, uuid);
    var ms := Gather(links, cases, items[..n], placed[..n], Values(items[n].entries));
    forall m
      ensures m in ms <==> Shares(links, cases, items[..n], placed[..n], items[n], m)
    {
      GatheredAreSharers(links, cases, items[..n], placed[..n], items[n], m);
    }
    if ms != [] {
      var k := EarliestIsFirstLeast(ms);
      assert ms[k] in ms;
      forall c | c in placed[n].linked
        ensures exists m :: m in ms && m.caseId == c
      {
        var i :| 0 <= i < |ms| && CaseIds(ms)[i] == c;
        assert ms[i] in ms;
      }
      forall m | m in ms
        ensures placed[n].rank <= m.rank && m.caseId in placed[n].linked
      {
        var i :| 0 <= i < |ms| && ms[i] == m;
        assert CaseIds(ms)[i] == m.caseId;
      }
    }
  }
}
