// apps/api/src/intake/service.ts, the second half of persist: which trace jobs a batch needs.
module IntakeTraces {
  import opened IntakeLinking
  import opened Wrappers

  /** queued: not started yet. */
  datatype Trace = Trace(id: string, caseId: string, chain: string, seed: string, queued: bool)

  /** case, chain, seed */
  type Key = (string, string, string)

  function KeyOf(t: Trace): Key {
    (t.caseId, t.chain, t.seed)
  }

  /** Chains an entry is traced on: the resolved one, or every candidate left. Hashes are never seeds. */
  function SeedChains(e: Entry): seq<string> {
    if !e.isAddress then []
    else if e.chain.Some? then [e.chain.value]
    else if e.noActivity then []
    else e.candidates
  }

  datatype Prepared = Prepared(id: string, chain: string, seed: string, reused: bool)

  datatype Plan = Plan(added: seq<Trace>, jobs: seq<Trace>, seen: map<Key, string>)

  predicate HasJob(jobs: seq<Trace>, id: string) {
    exists i :: 0 <= i < |jobs| && jobs[i].id == id
  }

  /** One (case, chain, seed): reuse a stored or earlier trace, or make one; a stored one still queued is enqueued again. */
  function Prepare(existing: map<Key, Trace>, uuid: nat -> string, plan: Plan, key: Key): (Plan, Prepared) {
    if key in existing then
      var have := existing[key];
      (if have.queued && !HasJob(plan.jobs, have.id) then plan.(jobs := plan.jobs + [have]) else plan,
       Prepared(have.id, key.1, key.2, true))
    else if key in plan.seen then
      (plan, Prepared(plan.seen[key], key.1, key.2, true))
    else
      var t := Trace(uuid(|plan.added|), key.0, key.1, key.2, true);
      (Plan(plan.added + [t], plan.jobs + [t], plan.seen[key := t.id]), Prepared(t.id, key.1, key.2, false))
  }

  /** Ids that were not in use before. */
  ghost predicate NewIds(existing: map<Key, Trace>, uuid: nat -> string) {
    && (forall m, n :: m != n ==> uuid(m) != uuid(n))
    && (forall k, n :: k in existing ==> existing[k].id != uuid(n))
  }

  ghost predicate AddedRight(existing: map<Key, Trace>, uuid: nat -> string, added: seq<Trace>, seen: map<Key, string>) {
    && (forall i :: 0 <= i < |added| ==> added[i].id == uuid(i) && added[i].queued)
    && (forall i :: 0 <= i < |added| ==> KeyOf(added[i]) !in existing && KeyOf(added[i]) in seen && seen[KeyOf(added[i])] == added[i].id)
    && (forall k :: k in seen ==> exists i :: 0 <= i < |added| && KeyOf(added[i]) == k)
    && (forall i, j :: 0 <= i < j < |added| ==> KeyOf(added[i]) != KeyOf(added[j]))
  }

  /** Every job id at most once, every new trace among the jobs, and no job but new traces and queued stored ones. */
  ghost predicate JobsRight(existing: map<Key, Trace>, added: seq<Trace>, jobs: seq<Trace>) {
    && OncePerId(jobs)
    && (forall t :: t in added ==> t in jobs)
    && (forall t :: t in jobs ==> t in added || (KeyOf(t) in existing && existing[KeyOf(t)] == t && t.queued))
  }

  ghost predicate OncePerId(jobs: seq<Trace>) {
    forall i, j :: 0 <= i < j < |jobs| ==> jobs[i].id != jobs[j].id
  }

  ghost predicate PlanRight(existing: map<Key, Trace>, uuid: nat -> string, plan: Plan) {
    AddedRight(existing, uuid, plan.added, plan.seen) && JobsRight(existing, plan.added, plan.jobs)
  }

  /** The key has a trace, stored or new, and a job unless that trace has started. */
  ghost predicate Served(existing: map<Key, Trace>, plan: Plan, key: Key) {
    if key in existing then existing[key].queued ==> HasJob(plan.jobs, existing[key].id)
    else key in plan.seen
  }

  lemma PrepareAdds(existing: map<Key, Trace>, uuid: nat -> string, plan: Plan, key: Key)
    requires NewIds(existing, uuid) && PlanRight(existing, uuid, plan) && key !in existing && key !in plan.seen
    ensures PlanRight(existing, uuid, Prepare(existing, uuid, plan, key).0)
  {
    var t := Trace(uuid(|plan.added|), key.0, key.1, key.2, true);
    assert KeyOf(t) == key;
    AddOne(existing, uuid, plan, t);
    forall i | 0 <= i < |plan.jobs|
      ensures plan.jobs[i].id != t.id
    {
      assert plan.jobs[i] in plan.jobs;
    }
  }

  lemma AddOne(existing: map<Key, Trace>, uuid: nat -> string, plan: Plan, t: Trace)
    requires NewIds(existing, uuid) && AddedRight(existing, uuid, plan.added, plan.seen)
    requires t.id == uuid(|plan.added|) && t.queued && KeyOf(t) !in existing && KeyOf(t) !in plan.seen
    ensures AddedRight(existing, uuid, plan.added + [t], plan.seen[KeyOf(t) := t.id])
  {
    var more := plan.added + [t];
    assert more[|plan.added|] == t;
    var seen := plan.seen[KeyOf(t) := t.id];
    forall k | k in seen
      ensures exists i :: 0 <= i < |more| && KeyOf(more[i]) == k
    {
      if k in plan.seen {
        var i :| 0 <= i < |plan.added| && KeyOf(plan.added[i]) == k;
        assert more[i] == plan.added[i];
      }
    }
  }

  lemma {:induction false} PrepareRight(existing: map<Key, Trace>, uuid: nat -> string, plan: Plan, key: Key)
    requires NewIds(existing, uuid) && PlanRight(existing, uuid, plan)
    requires forall k :: k in existing ==> KeyOf(existing[k]) == k
    ensures var (after, r) := Prepare(existing, uuid, plan, key);
      && PlanRight(existing, uuid, after) && Served(existing, after, key)
      && plan.added <= after.added && plan.jobs <= after.jobs && plan.seen.Keys <= after.seen.Keys
      && (r.reused <==> after.added == plan.added)
      && (forall t :: t in after.added ==> t in plan.added || KeyOf(t) == key)
  {
    if key !in existing && key !in plan.seen {
      PrepareAdds(existing, uuid, plan, key);
    } else if key in existing {
      var have, after := existing[key], Prepare(existing, uuid, plan, key).0;
      if have.queued && !HasJob(plan.jobs, have.id) {
        assert after.jobs[|plan.jobs|].id == have.id;
      }
    }
  }

  lemma StaysServed(existing: map<Key, Trace>, before: Plan, after: Plan, key: Key)
    requires Served(existing, before, key) && before.jobs <= after.jobs && before.seen.Keys <= after.seen.Keys
    ensures Served(existing, after, key)
  {
    if key in existing && existing[key].queued {
      var i :| 0 <= i < |before.jobs| && before.jobs[i].id == existing[key].id;
      assert after.jobs[i] == before.jobs[i];
    }
  }

  ghost predicate EntryServed(existing: map<Key, Trace>, plan: Plan, caseId: string, e: Entry) {
    forall c :: c in SeedChains(e) ==> Served(existing, plan, (caseId, c, e.value))
  }

  ghost predicate EntriesServed(existing: map<Key, Trace>, plan: Plan, caseId: string, entries: seq<Entry>) {
    forall e :: e in entries ==> EntryServed(existing, plan, caseId, e)
  }

  ghost predicate Grows(existing: map<Key, Trace>, uuid: nat -> string, before: Plan, after: Plan) {
    PlanRight(existing, uuid, after) && before.added <= after.added && before.jobs <= after.jobs && before.seen.Keys <= after.seen.Keys
  }

  // ---- what a complaint's row is told ----

  function EntryKeys(caseId: string, e: Entry): (r: seq<Key>)
    ensures |r| == |SeedChains(e)|
  {
    seq(|SeedChains(e)|, j requires 0 <= j < |SeedChains(e)| => (caseId, SeedChains(e)[j], e.value))
  }

  /** The traces a complaint asks for: one key per entry and chain, in order. */
  function Seeds(caseId: string, entries: seq<Entry>): seq<Key> {
    if entries == [] then []
    else Seeds(caseId, entries[..|entries| - 1]) + EntryKeys(caseId, entries[|entries| - 1])
  }

  /** p names the trace of key k; reused unless the batch made that trace for this very request. */
  ghost predicate Names(existing: map<Key, Trace>, seen: map<Key, string>, k: Key, p: Prepared, first: bool) {
    && p.chain == k.1 && p.seed == k.2 && (p.reused <==> !first)
    && if k in existing then p.id == existing[k].id else k in seen && p.id == seen[k]
  }

  /** Request i is the first one for its key, in the store and in the batch. */
  ghost predicate First(existing: map<Key, Trace>, seen0: map<Key, string>, keys: seq<Key>, i: nat)
    requires i < |keys|
  {
    keys[i] !in existing && keys[i] !in seen0 && keys[i] !in keys[..i]
  }

  /** Every request is answered, in order, with the trace of its key. */
  ghost predicate Answers(existing: map<Key, Trace>, seen0: map<Key, string>, seen: map<Key, string>, keys: seq<Key>, prepared: seq<Prepared>) {
    && |prepared| == |keys|
    && forall i :: 0 <= i < |keys| ==> Names(existing, seen, keys[i], prepared[i], First(existing, seen0, keys, i))
  }

  /** seen holds what it held and the requested keys that were not stored. */
  ghost predicate SeenGrows(existing: map<Key, Trace>, seen0: map<Key, string>, seen: map<Key, string>, keys: seq<Key>) {
    && (forall k :: k in seen0 ==> k in seen && seen[k] == seen0[k])
    && (forall k :: k in seen <==> k in seen0 || (k in keys && k !in existing))
  }

  ghost predicate Answered(existing: map<Key, Trace>, seen0: map<Key, string>, seen: map<Key, string>, keys: seq<Key>, prepared: seq<Prepared>) {
    Answers(existing, seen0, seen, keys, prepared) && SeenGrows(existing, seen0, seen, keys)
  }

  lemma AnswerOne(existing: map<Key, Trace>, uuid: nat -> string, seen0: map<Key, string>, plan: Plan, keys: seq<Key>,
                  prepared: seq<Prepared>, key: Key)
    requires Answered(existing, seen0, plan.seen, keys, prepared)
    ensures var (after, one) := Prepare(existing, uuid, plan, key);
      Answered(existing, seen0, after.seen, keys + [key], prepared + [one])
  {
    var (after, one) := Prepare(existing, uuid, plan, key);
    var more := keys + [key];
    forall i | 0 <= i < |more|
      ensures Names(existing, after.seen, more[i], (prepared + [one])[i], First(existing, seen0, more, i))
    {
      assert more[..i] == keys[..i];
      if i < |keys| {
        assert Names(existing, plan.seen, keys[i], prepared[i], First(existing, seen0, keys, i));
      } else {
        assert keys[..i] == keys;
      }
    }
  }

  /** Two stretches of requests make one. */
  lemma AnswersJoin(existing: map<Key, Trace>, seen0: map<Key, string>, seen1: map<Key, string>, seen2: map<Key, string>,
                    keys1: seq<Key>, prepared1: seq<Prepared>, keys2: seq<Key>, prepared2: seq<Prepared>)
    requires Answered(existing, seen0, seen1, keys1, prepared1) && Answered(existing, seen1, seen2, keys2, prepared2)
    ensures Answered(existing, seen0, seen2, keys1 + keys2, prepared1 + prepared2)
  {
    var keys, prepared := keys1 + keys2, prepared1 + prepared2;
    forall i | 0 <= i < |keys|
      ensures Names(existing, seen2, keys[i], prepared[i], First(existing, seen0, keys, i))
    {
      if i < |keys1| {
        assert keys[..i] == keys1[..i];
        assert Names(existing, seen1, keys1[i], prepared1[i], First(existing, seen0, keys1, i));
      } else {
        var j := i - |keys1|;
        assert keys[..i] == keys1 + keys2[..j];
        assert Names(existing, seen2, keys2[j], prepared2[j], First(existing, seen1, keys2, j));
      }
    }
  }

  /** The loop over one complaint's entries and their chains. */
  method PrepareItem(existing: map<Key, Trace>, uuid: nat -> string, plan0: Plan, caseId: string, entries: seq<Entry>)
    returns (plan: Plan, prepared: seq<Prepared>)
    requires NewIds(existing, uuid) && PlanRight(existing, uuid, plan0)
    requires forall k :: k in existing ==> KeyOf(existing[k]) == k
    ensures Grows(existing, uuid, plan0, plan) && EntriesServed(existing, plan, caseId, entries)
    ensures forall t :: t in plan.added ==> t in plan0.added || t.caseId == caseId
    ensures Answered(existing, plan0.seen, plan.seen, Seeds(caseId, entries), prepared)
  {
    hide PlanRight, NewIds, Served, Prepare, Answered, SeedChains;
    plan, prepared := plan0, [];
    NothingAnswered(existing, plan0.seen);
    for i := 0 to |entries|
      invariant Grows(existing, uuid, plan0, plan) && EntriesServed(existing, plan, caseId, entries[..i])
      invariant Answered(existing, plan0.seen, plan.seen, Seeds(caseId, entries[..i]), prepared)
      invariant forall t :: t in plan.added ==> t in plan0.added || t.caseId == caseId
    {
      var e := entries[i];
      var chains := SeedChains(e);
      ghost var before, keys := plan, EntryKeys(caseId, e);
      assert Seeds(caseId, entries[..i]) + keys[..0] == Seeds(caseId, entries[..i]);
      for j := 0 to |chains|
        invariant Grows(existing, uuid, before, plan)
        invariant Answered(existing, plan0.seen, plan.seen, Seeds(caseId, entries[..i]) + keys[..j], prepared)
        invariant forall t :: t in plan.added ==> t in plan0.added || t.caseId == caseId
        invariant forall k :: 0 <= k < j ==> Served(existing, plan, (caseId, chains[k], e.value))
      {
        ghost var middle := plan;
        var key := (caseId, chains[j], e.value);
        PrepareRight(existing, uuid, plan, key);
        AnswerOne(existing, uuid, plan0.seen, plan, Seeds(caseId, entries[..i]) + keys[..j], prepared, key);
        assert Seeds(caseId, entries[..i]) + keys[..j + 1] == Seeds(caseId, entries[..i]) + keys[..j] + [key];
        var (after, one) := Prepare(existing, uuid, plan, key);
        plan, prepared := after, prepared + [one];
        forall k | 0 <= k < j
          ensures Served(existing, plan, (caseId, chains[k], e.value))
        {
          StaysServed(existing, middle, plan, (caseId, chains[k], e.value));
        }
      }
      EntriesStay(existing, before, plan, caseId, entries[..i]);
      assert EntryServed(existing, plan, caseId, e);
      assert entries[..i + 1] == entries[..i] + [e];
      SeedsGrow(caseId, entries, i);
      assert keys[..|chains|] == keys;
    }
    assert entries[..|entries|] == entries;
  }

  lemma SeedsGrow(caseId: string, entries: seq<Entry>, i: nat)
    requires i < |entries|
    ensures Seeds(caseId, entries[..i + 1]) == Seeds(caseId, entries[..i]) + EntryKeys(caseId, entries[i])
  {
    assert entries[..i + 1][..i] == entries[..i];
  }

  lemma NothingAnswered(existing: map<Key, Trace>, seen: map<Key, string>)
    ensures Answered(existing, seen, seen, [], [])
  {
  }

  lemma EntriesStay(existing: map<Key, Trace>, before: Plan, after: Plan, caseId: string, entries: seq<Entry>)
    requires EntriesServed(existing, before, caseId, entries) && before.jobs <= after.jobs && before.seen.Keys <= after.seen.Keys
    ensures EntriesServed(existing, after, caseId, entries)
  {
    hide Served;
    forall e, c | e in entries && c in SeedChains(e)
      ensures Served(existing, after, (caseId, c, e.value))
    {
      assert EntryServed(existing, before, caseId, e);
      StaysServed(existing, before, after, (caseId, c, e.value));
    }
  }

  /** The stored traces of the given cases, by key. */
  ghost predicate Indexed(existing: map<Key, Trace>, stored: seq<Trace>, cases: set<string>) {
    && (forall k :: k in existing ==> existing[k] in stored && KeyOf(existing[k]) == k)
    && (forall t :: t in stored && t.caseId in cases ==> KeyOf(t) in existing)
  }

  method IndexTraces(stored: seq<Trace>, cases: set<string>) returns (existing: map<Key, Trace>)
    ensures Indexed(existing, stored, cases)
  {
    existing := map[];
    for i := 0 to |stored|
      invariant Indexed(existing, stored[..i], cases)
    {
      assert stored[..i + 1] == stored[..i] + [stored[i]];
      if stored[i].caseId in cases {
        existing := existing[KeyOf(stored[i]) := stored[i]];
      }
    }
    assert stored[..|stored|] == stored;
  }

  /** All requests of a batch, complaint by complaint. */
  function AllSeeds(items: seq<Item>, caseOf: seq<string>): seq<Key>
    requires |caseOf| == |items|
  {
    if items == [] then []
    else
      var n := |items| - 1;
      AllSeeds(items[..n], caseOf[..n]) + Seeds(caseOf[n], items[n].entries)
  }

  function Flat(prepared: seq<seq<Prepared>>): seq<Prepared> {
    if prepared == [] then [] else Flat(prepared[..|prepared| - 1]) + prepared[|prepared| - 1]
  }

  method PrepareTraces(items: seq<Item>, caseOf: seq<string>, existing: map<Key, Trace>, uuid: nat -> string)
    returns (plan: Plan, prepared: seq<seq<Prepared>>)
    requires |caseOf| == |items| && NewIds(existing, uuid) && forall k :: k in existing ==> KeyOf(existing[k]) == k
    ensures PlanRight(existing, uuid, plan) && |prepared| == |items|
    ensures forall n :: 0 <= n < |items| ==> EntriesServed(existing, plan, caseOf[n], items[n].entries)
    // a new trace belongs to the case of some complaint of the batch
    ensures forall t :: t in plan.added ==> t.caseId in caseOf
    // each complaint is told the traces of its own requests
    ensures Answered(existing, map[], plan.seen, AllSeeds(items, caseOf), Flat(prepared))
    ensures forall n :: 0 <= n < |items| ==> |prepared[n]| == |Seeds(caseOf[n], items[n].entries)|
  {
    hide PlanRight, NewIds, EntriesServed, Answered, Seeds;
    plan, prepared := Plan([], [], map[]), [];
    NothingPlanned(existing, uuid);
    NothingAnswered(existing, map[]);
    for n := 0 to |items|
      invariant |prepared| == n && Answered(existing, map[], plan.seen, AllSeeds(items[..n], caseOf[..n]), Flat(prepared))
      invariant forall m :: 0 <= m < n ==> |prepared[m]| == |Seeds(caseOf[m], items[m].entries)|
      invariant |prepared| == n && PlanRight(existing, uuid, plan)
      invariant forall m :: 0 <= m < n ==> EntriesServed(existing, plan, caseOf[m], items[m].entries)
      invariant forall t :: t in plan.added ==> t.caseId in caseOf
    {
      ghost var before := plan;
      var one;
      plan, one := PrepareItem(existing, uuid, plan, caseOf[n], items[n].entries);
      AnswersJoin(existing, map[], before.seen, plan.seen, AllSeeds(items[..n], caseOf[..n]), Flat(prepared),
                  Seeds(caseOf[n], items[n].entries), one);
      AnswerLength(existing, before.seen, plan.seen, Seeds(caseOf[n], items[n].entries), one);
      assert items[..n + 1][..n] == items[..n] && caseOf[..n + 1][..n] == caseOf[..n];
      assert (prepared + [one])[..n] == prepared;
      prepared := prepared + [one];
      forall m | 0 <= m < n
        ensures EntriesServed(existing, plan, caseOf[m], items[m].entries)
      {
        EntriesStay(existing, before, plan, caseOf[m], items[m].entries);
      }
    }
    assert items[..|items|] == items && caseOf[..|items|] == caseOf;
  }

  lemma AnswerLength(existing: map<Key, Trace>, seen0: map<Key, string>, seen: map<Key, string>, keys: seq<Key>, prepared: seq<Prepared>)
    requires Answered(existing, seen0, seen, keys, prepared)
    ensures |prepared| == |keys|
  {
  }

  lemma NothingPlanned(existing: map<Key, Trace>, uuid: nat -> string)
    ensures PlanRight(existing, uuid, Plan([], [], map[]))
  {
  }
}
