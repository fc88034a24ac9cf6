// workers/adapters/providerGuard.ts, ProviderGuard.call: bounded retries per provider, failover between providers.
module ProviderCall {
  import opened Wrappers

  /** A provider's error with classify's verdict on it. */
  datatype ProviderError = ProviderError(message: string, retry: bool, throttled: bool)

  datatype Outcome<T> = Value(v: T) | Failed(error: ProviderError)

  /** What one call meets, step by step and attempt by attempt. The breaker's answers are part of it:
      other calls change the breaker between any two awaits, so every answer is possible. */
  datatype World<!T> = World(
    admits: nat -> bool,
    withinBudget: nat -> bool,
    run: (nat, nat) -> Outcome<T>,
    newlyOpen: (nat, nat) -> bool,
    isOpen: (nat, nat) -> bool)

  datatype CauseError = CircuitOpen | BudgetExhausted | ByProvider(e: ProviderError)

  datatype Cause = Cause(provider: string, error: CauseError)

  datatype CallResult<T> = Success(v: T) | Surfaced(e: ProviderError) | Unavailable(causes: seq<Cause>)

  datatype Stats = Stats(
    calls: nat, retries: nat, throttled: nat, failures: nat, failovers: nat, circuitOpens: nat, quotaSkips: nat)

  const ZERO := Stats(0, 0, 0, 0, 0, 0, 0)

  // ---- what the call should do ----

  predicate Stops<T>(w: World<T>, attempts: nat, i: nat, a: nat) {
    var o := w.run(i, a);
    o.Value? || !o.error.retry || a == attempts || w.isOpen(i, a)
  }

  /** The attempt at which step i ends, from attempt a on. */
  function Last<T>(w: World<T>, attempts: nat, i: nat, a: nat): (last: nat)
    requires a <= attempts
    ensures a <= last <= attempts
    decreases attempts - a
  {
    if a == attempts || Stops(w, attempts, i, a) then a else Last(w, attempts, i, a + 1)
  }

  predicate Admitted<T>(w: World<T>, i: nat) {
    w.admits(i) && w.withinBudget(i)
  }

  /** Step i gets past breaker and budget and is run: with no attempt allowed, no run follows. */
  predicate Entered<T>(w: World<T>, attempts: nat, i: nat) {
    attempts >= 1 && Admitted(w, i)
  }

  function Final<T>(w: World<T>, attempts: nat, i: nat): Outcome<T>
    requires attempts >= 1
  {
    w.run(i, Last(w, attempts, i, 1))
  }

  predicate Succeeds<T>(w: World<T>, attempts: nat, i: nat) {
    Entered(w, attempts, i) && Final(w, attempts, i).Value?
  }

  /** Why step i failed; None where it was let in without being run. */
  function CauseOf<T>(w: World<T>, attempts: nat, i: nat): Option<CauseError>
    requires !Succeeds(w, attempts, i)
  {
    if !w.admits(i) then Some(CircuitOpen)
    else if !w.withinBudget(i) then Some(BudgetExhausted)
    else if attempts == 0 then None
    else Some(ByProvider(Final(w, attempts, i).error))
  }

  /** The steps before n that were run, as their providers. */
  function Entries<T>(w: World<T>, attempts: nat, steps: seq<string>, n: nat): seq<string>
    requires n <= |steps|
  {
    if n == 0 then [] else Entries(w, attempts, steps, n - 1) + if Entered(w, attempts, n - 1) then [steps[n - 1]] else []
  }

  function Runs<T>(w: World<T>, attempts: nat, n: nat): nat {
    if n == 0 then 0
    else Runs(w, attempts, n - 1) + if Entered(w, attempts, n - 1) then Last(w, attempts, n - 1, 1) else 0
  }

  function OneCause(provider: string, error: Option<CauseError>): seq<Cause> {
    if error.None? then [] else [Cause(provider, error.value)]
  }

  /** What failed before step n: in order, the cause of every step that has one. */
  ghost function Causes<T>(w: World<T>, attempts: nat, steps: seq<string>, n: nat): seq<Cause>
    requires n <= |steps| && forall i :: 0 <= i < n ==> !Succeeds(w, attempts, i)
  {
    if n == 0 then []
    else Causes(w, attempts, steps, n - 1) + OneCause(steps[n - 1], CauseOf(w, attempts, n - 1))
  }

  /** With at least one attempt allowed, every failed step leaves its own cause. */
  lemma {:induction false} OneCauseEach<T>(w: World<T>, attempts: nat, steps: seq<string>, n: nat)
    requires n <= |steps| && forall i :: 0 <= i < n ==> !Succeeds(w, attempts, i)
    ensures |Causes(w, attempts, steps, n)| <= n
    ensures attempts >= 1 ==> |Causes(w, attempts, steps, n)| == n
    ensures attempts >= 1 ==>
      (forall i :: 0 <= i < n ==>
        CauseOf(w, attempts, i).Some? && Causes(w, attempts, steps, n)[i] == Cause(steps[i], CauseOf(w, attempts, i).value))
  {
    if n > 0 {
      OneCauseEach(w, attempts, steps, n - 1);
    }
  }

  /** With no attempt allowed nothing is ever run: a step that gets past breaker and budget leaves no trace at all. */
  lemma {:induction false} NoAttemptNoTrace<T>(w: World<T>, steps: seq<string>, n: nat)
    requires n <= |steps|
    ensures forall i :: 0 <= i < n ==> !Succeeds(w, 0, i)
    ensures Entries(w, 0, steps, n) == [] && Runs(w, 0, n) == 0
    ensures (forall i :: 0 <= i < n ==> Admitted(w, i)) <==> Causes(w, 0, steps, n) == []
  {
    if n > 0 {
      NoAttemptNoTrace(w, steps, n - 1);
      assert CauseOf(w, 0, n - 1).None? <==> Admitted(w, n - 1);
    }
  }

  function Providers(causes: seq<Cause>): seq<string> {
    if causes == [] then [] else Providers(causes[..|causes| - 1]) + [causes[|causes| - 1].provider]
  }

  lemma {:induction false} RunsBounded<T>(w: World<T>, attempts: nat, n: nat)
    ensures Runs(w, attempts, n) <= n * attempts
  {
    if n > 0 {
      RunsBounded(w, attempts, n - 1);
      assert (n - 1) * attempts + attempts == n * attempts;
    }
  }

  predicate Surfaces(e: ProviderError) {
    !e.retry && e.message != "circuit open" && e.message != "daily budget exhausted"
  }

  function Exhausted<T>(steps: seq<string>, causes: seq<Cause>): CallResult<T> {
    if |steps| == 1 && |causes| == 1 && causes[0].error.ByProvider? && Surfaces(causes[0].error.e)
    then Surfaced(causes[0].error.e)
    else Unavailable(causes)
  }

  /** The one step of a call gave a definitive answer: its provider was run and its last run failed for good, with a message
      of its own. */
  ghost predicate Definitive<T>(w: World<T>, attempts: nat, e: ProviderError) {
    && attempts >= 1 && w.admits(0) && w.withinBudget(0)
    && w.run(0, Last(w, attempts, 0, 1)) == Failed(e) && !e.retry
    && e.message != "circuit open" && e.message != "daily budget exhausted"
  }

  /** A call that fails gives the provider's own error exactly when it had one step and that gave a definitive answer;
      otherwise it says that all are unavailable, with the causes. */
  lemma SurfacedIff<T>(w: World<T>, attempts: nat, steps: seq<string>)
    requires forall i :: 0 <= i < |steps| ==> !Succeeds(w, attempts, i)
    ensures var causes := Causes(w, attempts, steps, |steps|);
      var r: CallResult<T> := Exhausted(steps, causes);
      && (forall e :: r == Surfaced(e) <==> |steps| == 1 && Definitive(w, attempts, e))
      && (r == Unavailable(causes) <==> !(|steps| == 1 && exists e :: Definitive(w, attempts, e)))
      && !r.Success?
  {
    hide Last;
    if |steps| == 1 {
      assert !Succeeds(w, attempts, 0);
      assert Causes(w, attempts, steps, 0) == [];
      assert Causes(w, attempts, steps, 1) == OneCause(steps[0], CauseOf(w, attempts, 0));
      if CauseOf(w, attempts, 0).Some? && CauseOf(w, attempts, 0).value.ByProvider? {
        var e := CauseOf(w, attempts, 0).value.e;
        assert Definitive(w, attempts, e) <==> Surfaces(e);
      }
    }
  }

  /** The attempt a step ends at: the first that gives a value, fails for good, is the last allowed or finds the circuit
      open; every earlier one failed softly and was retried. */
  lemma {:induction false} LastIsFirst<T>(w: World<T>, attempts: nat, i: nat, a: nat)
    requires a <= attempts
    ensures var last := Last(w, attempts, i, a);
      && (last == attempts || w.run(i, last).Value? || !w.run(i, last).error.retry || w.isOpen(i, last))
      && forall b :: a <= b < last ==> w.run(i, b).Failed? && w.run(i, b).error.retry && !w.isOpen(i, b)
    decreases attempts - a
  {
    if a < attempts && !Stops(w, attempts, i, a) {
      LastIsFirst(w, attempts, i, a + 1);
    }
  }

  /** Why a step failed: its circuit was open, else the budget was spent, else the error of its last run. */
  lemma CauseIff<T>(w: World<T>, attempts: nat, i: nat)
    requires !Succeeds(w, attempts, i)
    ensures CauseOf(w, attempts, i) == Some(CircuitOpen) <==> !w.admits(i)
    ensures CauseOf(w, attempts, i) == Some(BudgetExhausted) <==> w.admits(i) && !w.withinBudget(i)
    ensures CauseOf(w, attempts, i).None? <==> w.admits(i) && w.withinBudget(i) && attempts == 0
    ensures forall e :: CauseOf(w, attempts, i) == Some(ByProvider(e)) <==>
      w.admits(i) && w.withinBudget(i) && attempts >= 1 && w.run(i, Last(w, attempts, i, 1)) == Failed(e)
  {
    hide Last;
  }

  // ---- the guard ----

  function StatIn(stat: map<string, Stats>, p: string): Stats {
    if p in stat then stat[p] else ZERO
  }

  /** Entries to p so far: calls that were not retries. */
  function EntriesTo(stat: map<string, Stats>, p: string): int {
    StatIn(stat, p).calls - StatIn(stat, p).retries
  }

  /** How many of attempts 1..n are of a kind. */
  function CountRuns(n: nat, kind: nat -> bool): nat {
    if n == 0 then 0 else CountRuns(n - 1, kind) + if kind(n) then 1 else 0
  }

  predicate FailsSoftly<T>(w: World<T>, i: nat, a: nat) {
    w.run(i, a).Failed? && w.run(i, a).error.retry
  }

  /** What n runs of step i add to a provider's throttled, failures and circuitOpens. */
  ghost predicate RunsCounted<T>(w: World<T>, i: nat, n: nat, was: Stats, now: Stats) {
    && now.failures == was.failures + CountRuns(n, (a: nat) => FailsSoftly(w, i, a))
    && now.throttled == was.throttled + CountRuns(n, (a: nat) => w.run(i, a).Failed? && w.run(i, a).error.throttled)
    && now.circuitOpens == was.circuitOpens + CountRuns(n, (a: nat) => FailsSoftly(w, i, a) && w.newlyOpen(i, a))
  }

  /** What one run adds to them. */
  ghost predicate RunCounted<T>(w: World<T>, i: nat, a: nat, was: Stats, now: Stats) {
    && now.failures == was.failures + (if FailsSoftly(w, i, a) then 1 else 0)
    && now.throttled == was.throttled + (if w.run(i, a).Failed? && w.run(i, a).error.throttled then 1 else 0)
    && now.circuitOpens == was.circuitOpens + (if FailsSoftly(w, i, a) && w.newlyOpen(i, a) then 1 else 0)
  }

  lemma OneRunMore<T>(w: World<T>, i: nat, n: nat, was: Stats, before: Stats, after: Stats)
    requires RunsCounted(w, i, n, was, before) && RunCounted(w, i, n + 1, before, after)
    ensures RunsCounted(w, i, n + 1, was, after)
  {
  }

  lemma NoRuns<T>(w: World<T>, i: nat, was: Stats)
    ensures RunsCounted(w, i, 0, was, was)
  {
  }

  /** What one step adds to the statistics. */
  ghost predicate StepAccounted<T>(w: World<T>, attempts: nat, i: nat, provider: string, caused: bool,
                                   was: map<string, Stats>, now: map<string, Stats>) {
    && (forall p :: EntriesTo(now, p) == EntriesTo(was, p) + if Entered(w, attempts, i) && p == provider then 1 else 0)
    && (forall p :: StatIn(now, p).failovers == StatIn(was, p).failovers + if caused && p == provider then 1 else 0)
  }

  lemma StepMoves<T>(w: World<T>, attempts: nat, i: nat, provider: string, caused: bool, was: map<string, Stats>, now: map<string, Stats>)
    requires EntriesTo(now, provider) == EntriesTo(was, provider) + if Entered(w, attempts, i) then 1 else 0
    requires StatIn(now, provider).failovers == StatIn(was, provider).failovers + if caused then 1 else 0
    requires forall p :: p != provider ==> StatIn(now, p) == StatIn(was, p)
    ensures StepAccounted(w, attempts, i, provider, caused, was, now)
  {
    hide StatIn, Entered;
  }

  /** For every provider as many new entries as it was run among the first `reached` steps, and as many new
      failovers as it has causes. */
  ghost predicate Accounted<T>(w: World<T>, attempts: nat, steps: seq<string>, reached: nat, causes: seq<Cause>,
                               was: map<string, Stats>, now: map<string, Stats>)
    requires reached <= |steps|
  {
    && (forall p :: EntriesTo(now, p) == EntriesTo(was, p) + multiset(Entries(w, attempts, steps, reached))[p])
    && (forall p :: StatIn(now, p).failovers == StatIn(was, p).failovers + multiset(Providers(causes))[p])
  }

  lemma NothingYet<T>(w: World<T>, attempts: nat, steps: seq<string>, was: map<string, Stats>)
    ensures Accounted(w, attempts, steps, 0, [], was, was)
  {
  }

  lemma StepsAccounted<T>(w: World<T>, attempts: nat, steps: seq<string>, i: nat, causes: seq<Cause>, error: Option<CauseError>,
                          was: map<string, Stats>, mid: map<string, Stats>, now: map<string, Stats>)
    requires i < |steps| && Accounted(w, attempts, steps, i, causes, was, mid)
    requires StepAccounted(w, attempts, i, steps[i], error.Some?, mid, now)
    ensures Accounted(w, attempts, steps, i + 1, causes + OneCause(steps[i], error), was, now)
  {
    hide EntriesTo, StatIn, Providers, Entries, Entered;
    forall p
      ensures EntriesTo(now, p) == EntriesTo(was, p) + multiset(Entries(w, attempts, steps, i + 1))[p]
      ensures StatIn(now, p).failovers == StatIn(was, p).failovers + multiset(Providers(causes + OneCause(steps[i], error)))[p]
    {
      EntriesGrow(w, attempts, steps, i, p);
      ProvidersGrow(causes, steps[i], error, p);
    }
  }

  lemma EntriesGrow<T>(w: World<T>, attempts: nat, steps: seq<string>, i: nat, p: string)
    requires i < |steps|
    ensures multiset(Entries(w, attempts, steps, i + 1))[p] ==
      multiset(Entries(w, attempts, steps, i))[p] + if Entered(w, attempts, i) && p == steps[i] then 1 else 0
  {
    hide Entered;
  }

  lemma ProvidersGrow(causes: seq<Cause>, provider: string, error: Option<CauseError>, p: string)
    ensures multiset(Providers(causes + OneCause(provider, error)))[p] ==
      multiset(Providers(causes))[p] + if error.Some? && p == provider then 1 else 0
  {
    if error.Some? {
      assert (causes + OneCause(provider, error))[..|causes|] == causes;
    } else {
      assert causes + OneCause(provider, error) == causes;
    }
  }

  class ProviderGuard {
    const attempts: nat
    var stat: map<string, Stats>

    constructor (attempts: nat)
      ensures this.attempts == attempts && stat == map[]
    {
      this.attempts := attempts;
      stat := map[];
    }

    function StatOf(p: string): Stats
      reads this
    {
      StatIn(stat, p)
    }

    /** A step that is passed over: circuit open, or daily budget spent. */
    method Skip(provider: string, quota: bool)
      modifies this
      ensures var s := StatIn(old(stat), provider);
        stat == old(stat)[provider := s.(failovers := s.failovers + 1, quotaSkips := s.quotaSkips + if quota then 1 else 0)]
    {
      var s := StatOf(provider);
      stat := stat[provider := s.(failovers := s.failovers + 1, quotaSkips := s.quotaSkips + if quota then 1 else 0)];
    }

    /** One attempt and its statistics; again: a retry follows. */
    method Attempt<T>(w: World<T>, i: nat, attempt: nat, s0: Stats) returns (r: Outcome<T>, s: Stats, again: bool)
      ensures r == w.run(i, attempt) && (again <==> !Stops(w, attempts, i, attempt))
      ensures s.calls == s0.calls + 1 && s.retries == s0.retries + if again then 1 else 0
      ensures s.failovers == s0.failovers + (if again || r.Value? then 0 else 1) && s.quotaSkips == s0.quotaSkips
      ensures RunCounted(w, i, attempt, s0, s)
    {
      s, again := s0.(calls := s0.calls + 1), false;
      r := w.run(i, attempt);
      if r.Value? {
        return;
      }
      if r.error.throttled {
        s := s.(throttled := s.throttled + 1);
      }
      if !r.error.retry {
        s := s.(failovers := s.failovers + 1);
        return;
      }
      s := s.(failures := s.failures + 1);
      if w.newlyOpen(i, attempt) {
        s := s.(circuitOpens := s.circuitOpens + 1);
      }
      if attempt == attempts || w.isOpen(i, attempt) {
        s := s.(failovers := s.failovers + 1);
        return;
      }
      s, again := s.(retries := s.retries + 1), true;
    }

    /** The attempt loop of one step that was let in. */
    method RunStep<T>(w: World<T>, i: nat, provider: string) returns (r: Outcome<T>, runs: nat)
      requires attempts >= 1
      modifies this
      ensures r == Final(w, attempts, i) && runs == Last(w, attempts, i, 1)
      ensures StatOf(provider).calls == old(StatOf(provider)).calls + runs
      ensures StatOf(provider).retries == old(StatOf(provider)).retries + runs - 1
      ensures StatOf(provider).failovers == old(StatOf(provider)).failovers + if r.Value? then 0 else 1
      ensures StatOf(provider).quotaSkips == old(StatOf(provider)).quotaSkips
      ensures RunsCounted(w, i, runs, old(StatOf(provider)), StatOf(provider))
      ensures forall p :: p != provider ==> StatIn(stat, p) == StatIn(old(stat), p)
    {
      hide RunsCounted, RunCounted, Stops;
      runs := 0;
      ghost var was := StatOf(provider);
      NoRuns(w, i, was);
      for attempt := 1 to attempts + 1
        invariant runs == attempt - 1 < attempts
        invariant Last(w, attempts, i, attempt) == Last(w, attempts, i, 1)
        invariant StatOf(provider).calls == was.calls + runs
        invariant StatOf(provider).retries == was.retries + runs
        invariant StatOf(provider).failovers == was.failovers && StatOf(provider).quotaSkips == was.quotaSkips
        invariant RunsCounted(w, i, runs, was, StatOf(provider))
        invariant forall p :: p != provider ==> StatIn(stat, p) == StatIn(old(stat), p)
      {
        var s0 := StatOf(provider);
        var s, again;
        r, s, again := Attempt(w, i, attempt, s0);
        OneRunMore(w, i, runs, was, s0, s);
        LastAttemptStops(w, attempts, i);
        runs := runs + 1;
        stat := stat[provider := s];
        if !again {
          return;
        }
      }
    }

    lemma LastAttemptStops<T>(w: World<T>, attempts: nat, i: nat)
      ensures Stops(w, attempts, i, attempts)
    {
    }

    /** One step: let in or skipped, then its attempts. */
    method TryStep<T>(w: World<T>, i: nat, provider: string) returns (r: Result<T, Option<CauseError>>, runs: nat)
      modifies this
      ensures r.Ok? <==> Succeeds(w, attempts, i)
      ensures r.Ok? ==> r.value == Final(w, attempts, i).v
      ensures r.Err? ==> r.error == CauseOf(w, attempts, i)
      ensures runs == if Entered(w, attempts, i) then Last(w, attempts, i, 1) else 0
      ensures StepAccounted(w, attempts, i, provider, r.Err? && r.error.Some?, old(stat), stat)
      ensures RunsCounted(w, i, runs, StatIn(old(stat), provider), StatOf(provider))
      ensures StatOf(provider).quotaSkips ==
        StatIn(old(stat), provider).quotaSkips + if r == Err(Some(BudgetExhausted)) then 1 else 0
      ensures forall p :: p != provider ==> StatIn(stat, p) == StatIn(old(stat), p)
    {
      hide Last, RunsCounted, StepAccounted;
      ghost var was := stat;
      if !w.admits(i) {
        Skip(provider, false);
        SkipRuns(w, i, StatIn(was, provider), StatOf(provider));
        StepMoves(w, attempts, i, provider, true, was, stat);
        return Err(Some(CircuitOpen)), 0;
      }
      if !w.withinBudget(i) {
        Skip(provider, true);
        SkipRuns(w, i, StatIn(was, provider), StatOf(provider));
        StepMoves(w, attempts, i, provider, true, was, stat);
        return Err(Some(BudgetExhausted)), 0;
      }
      if attempts == 0 {
        NoRuns(w, i, StatOf(provider));
        StepMoves(w, attempts, i, provider, false, was, stat);
        return Err(None), 0;
      }
      var outcome;
      outcome, runs := RunStep(w, i, provider);
      StepMoves(w, attempts, i, provider, !outcome.Value?, was, stat);
      r := if outcome.Value? then Ok(outcome.v) else Err(Some(ByProvider(outcome.error)));
    }

    lemma SkipRuns<T>(w: World<T>, i: nat, was: Stats, now: Stats)
      requires now.failures == was.failures && now.throttled == was.throttled && now.circuitOpens == was.circuitOpens
      ensures RunsCounted(w, i, 0, was, now)
    {
    }

    /** Steps in order; the first success wins. reached is the number of steps looked at. */
    method Call<T>(w: World<T>, steps: seq<string>) returns (r: CallResult<T>, runs: nat, causes: seq<Cause>, reached: nat)
      modifies this
      ensures reached <= |steps|
      // the first success in provider order, or the causes of all steps
      ensures r.Success? <==> exists i :: 0 <= i < |steps| && Succeeds(w, attempts, i)
      ensures r.Success? ==> reached >= 1 && Succeeds(w, attempts, reached - 1) && r.v == Final(w, attempts, reached - 1).v
      ensures !r.Success? ==> reached == |steps| && r == Exhausted(steps, causes)
      ensures var failed := if r.Success? then reached - 1 else reached;
        (forall i :: 0 <= i < failed ==> !Succeeds(w, attempts, i)) && causes == Causes(w, attempts, steps, failed)
      // the work done and what the statistics say about it
      ensures runs == Runs(w, attempts, reached) && runs <= |steps| * attempts
      ensures Accounted(w, attempts, steps, reached, causes, old(stat), stat)
    {
      hide Succeeds, Final, CauseOf, Last, Entered, StepAccounted, Accounted;
      ghost var was := stat;
      NothingYet(w, attempts, steps, was);
      causes, runs := [], 0;
      for i := 0 to |steps|
        invariant runs == Runs(w, attempts, i)
        invariant forall j :: 0 <= j < i ==> !Succeeds(w, attempts, j)
        invariant causes == Causes(w, attempts, steps, i)
        invariant Accounted(w, attempts, steps, i, causes, was, stat)
      {
        ghost var mid := stat;
        var outcome, n := TryStep(w, i, steps[i]);
        runs := runs + n;
        if outcome.Ok? {
          RunsWithin(w, attempts, i + 1, |steps|);
          StepsAccounted(w, attempts, steps, i, causes, None, was, mid, stat);
          assert causes + OneCause(steps[i], None) == causes;
          return Success(outcome.value), runs, causes, i + 1;
        }
        StepsAccounted(w, attempts, steps, i, causes, outcome.error, was, mid, stat);
        causes := causes + OneCause(steps[i], outcome.error);
      }
      RunsWithin(w, attempts, |steps|, |steps|);
      return Exhausted(steps, causes), runs, causes, |steps|;
    }
  }

  lemma RunsWithin<T>(w: World<T>, attempts: nat, n: nat, m: nat)
    requires n <= m
    ensures Runs(w, attempts, n) <= m * attempts
  {
    RunsBounded(w, attempts, n);
    Within(n, m, attempts);
  }

  lemma Within(a: nat, b: nat, m: nat)
    requires a <= b
    ensures a * m <= b * m
  {
  }
}
