// workers/adapters/providerGuard.ts, call and Breaker together: any number of calls in flight over shared breakers,
// in every interleaving of their steps. A call gives way between two of its awaits; here it may do so at the breaker
// question as well, which only adds interleavings.
module CallSystem {
  import opened Wrappers
  import opened CircuitBreaker
  import opened ProviderCall

  /** What classify makes of the end of a run. */
  datatype Verdict = Success | HardFailure(throttled: bool) | Retryable(throttled: bool)

  datatype Caller =
    | Asking(steps: seq<string>, i: nat)                   // about to ask the breaker of step i
    | Budgeting(steps: seq<string>, i: nat)                // admitted, waiting for the daily budget
    | Running(steps: seq<string>, i: nat, attempt: int)    // a run of the provider is out
    | Sleeping(steps: seq<string>, i: nat, attempt: int)   // before the next attempt
    | Finished(ok: bool)

  datatype System = System(breakers: map<string, State>, stats: map<string, Stats>, callers: seq<Caller>, clock: int)

  datatype Limits = Limits(policy: Policy, attempts: int)

  datatype Event =
    | Arrive(steps: seq<string>)
    | Ask(c: nat, now: int)
    | Budget(c: nat, within: bool)
    | Ran(c: nat, verdict: Verdict, now: int)
    | Wake(c: nat)

  const START := System(map[], map[], [], 0)

  function BreakerOf(s: System, p: string): State {
    if p in s.breakers then s.breakers[p] else FRESH
  }

  predicate AtStep(k: Caller) {
    !k.Finished? && k.i < |k.steps|
  }

  function ProviderOf(k: Caller): string
    requires AtStep(k)
  {
    k.steps[k.i]
  }

  function Advance(steps: seq<string>, i: nat): Caller {
    if i + 1 < |steps| then Asking(steps, i + 1) else Finished(false)
  }

  predicate Enabled(s: System, e: Event) {
    match e
    case Arrive(_) => true
    case Ask(c, now) => c < |s.callers| && s.callers[c].Asking? && AtStep(s.callers[c]) && s.clock <= now
    case Budget(c, _) => c < |s.callers| && s.callers[c].Budgeting? && AtStep(s.callers[c])
    case Ran(c, _, now) => c < |s.callers| && s.callers[c].Running? && AtStep(s.callers[c]) && s.clock <= now
    case Wake(c) => c < |s.callers| && s.callers[c].Sleeping? && AtStep(s.callers[c])
  }

  /** The provider a step is about; None for an arrival. */
  function Target(s: System, e: Event): Option<string>
    requires Enabled(s, e)
  {
    match e
    case Arrive(_) => None
    case Ask(c, _) => Some(ProviderOf(s.callers[c]))
    case Budget(c, _) => Some(ProviderOf(s.callers[c]))
    case Ran(c, _, _) => Some(ProviderOf(s.callers[c]))
    case Wake(c) => Some(ProviderOf(s.callers[c]))
  }

  // ---- what a step does to the breaker, the statistics and the caller ----

  function BreakerAfter(l: Limits, b: State, e: Event): State {
    match e
    case Ask(_, now) => AfterAllow(l.policy, b, now)
    case Ran(_, verdict, now) =>
      if verdict.Success? then FRESH else if verdict.Retryable? then AfterFailure(l.policy, b, now) else b
    case _ => b
  }

  predicate Opens(b: State, b': State) {
    b.openedAt.None? && b'.openedAt.Some?
  }

  /** After a retryable failure: the last attempt, or a circuit that is open now. */
  predicate GivesUp(l: Limits, b': State, attempt: int, now: int) {
    attempt == l.attempts || ModeAt(l.policy, b', now).Open?
  }

  function StatsAfter(l: Limits, b: State, k: Caller, st: Stats, e: Event): Stats {
    match e
    case Arrive(_) => st
    case Ask(_, now) => if Admits(l.policy, b, now) then st else st.(failovers := st.failovers + 1)
    case Budget(_, within) =>
      if !within then st.(quotaSkips := st.quotaSkips + 1, failovers := st.failovers + 1)
      else if l.attempts < 1 then st
      else st.(calls := st.calls + 1)
    case Ran(_, verdict, now) =>
      var st1 := if !verdict.Success? && verdict.throttled then st.(throttled := st.throttled + 1) else st;
      if verdict.Success? then st
      else if verdict.HardFailure? then st1.(failovers := st1.failovers + 1)
      else
        var b' := AfterFailure(l.policy, b, now);
        var st2 := st1.(failures := st1.failures + 1, circuitOpens := st1.circuitOpens + if Opens(b, b') then 1 else 0);
        if k.Running? && GivesUp(l, b', k.attempt, now) then st2.(failovers := st2.failovers + 1)
        else st2.(retries := st2.retries + 1)
    case Wake(_) => st.(calls := st.calls + 1)
  }

  function CallerAfter(l: Limits, b: State, k: Caller, e: Event): Caller
    requires !k.Finished?
  {
    match e
    case Arrive(_) => k
    case Ask(_, now) => if Admits(l.policy, b, now) then Budgeting(k.steps, k.i) else Advance(k.steps, k.i)
    case Budget(_, within) => if within && l.attempts >= 1 then Running(k.steps, k.i, 1) else Advance(k.steps, k.i)
    case Ran(_, verdict, now) =>
      if verdict.Success? then Finished(true)
      else if verdict.HardFailure? || !k.Running? then Advance(k.steps, k.i)
      else if GivesUp(l, AfterFailure(l.policy, b, now), k.attempt, now) then Advance(k.steps, k.i)
      else Sleeping(k.steps, k.i, k.attempt)
    case Wake(_) => if k.Sleeping? then Running(k.steps, k.i, k.attempt + 1) else k
  }

  function Apply(l: Limits, s: System, e: Event): System
    requires Enabled(s, e)
  {
    if e.Arrive? then
      s.(callers := s.callers + [if e.steps == [] then Finished(false) else Asking(e.steps, 0)])
    else
      var k := s.callers[e.c];
      var p := ProviderOf(k);
      var b, st := BreakerOf(s, p), StatIn(s.stats, p);
      System(s.breakers[p := BreakerAfter(l, b, e)], s.stats[p := StatsAfter(l, b, k, st, e)],
             s.callers[e.c := CallerAfter(l, b, k, e)], if e.Ask? || e.Ran? then e.now else s.clock)
  }

  /** states[i] --events[i]--> states[i + 1], from any state on. */
  ghost predicate Continues(l: Limits, states: seq<System>, events: seq<Event>) {
    |states| == |events| + 1 &&
    forall i :: 0 <= i < |events| ==> StepAt(l, states, events, i)
  }

  ghost predicate StepAt(l: Limits, states: seq<System>, events: seq<Event>, i: nat)
    requires i < |events| && |states| == |events| + 1
  {
    Enabled(states[i], events[i]) && states[i + 1] == Apply(l, states[i], events[i])
  }

  ghost predicate Execution(l: Limits, states: seq<System>, events: seq<Event>) {
    Continues(l, states, events) && states[0] == START
  }

  // ---- the trial of a half-open breaker ----

  /** Open, and its one trial given out. */
  predicate Pending(s: System, p: string) {
    BreakerOf(s, p).openedAt.Some? && BreakerOf(s, p).trial
  }

  /** The call is between the breaker's yes and its own leaving of provider p. */
  predicate InFlight(k: Caller, p: string) {
    (k.Budgeting? || k.Running? || k.Sleeping?) && AtStep(k) && ProviderOf(k) == p
  }

  ghost predicate SomeInFlight(s: System, p: string) {
    exists c :: 0 <= c < |s.callers| && InFlight(s.callers[c], p)
  }

  predicate AdmittedAt(l: Limits, s: System, e: Event, p: string) {
    e.Ask? && Enabled(s, e) && Target(s, e) == Some(p) && Admits(l.policy, BreakerOf(s, p), e.now)
  }

  /** A call tells p's breaker how a run went. */
  predicate Reports(s: System, e: Event, p: string) {
    e.Ran? && Enabled(s, e) && Target(s, e) == Some(p) && !e.verdict.HardFailure?
  }

  /** A call leaves p without telling: the budget is spent, or the failure is a hard one (or no attempt is allowed). */
  predicate LeavesSilently(l: Limits, s: System, e: Event, p: string) {
    Enabled(s, e) && Target(s, e) == Some(p) &&
    ((e.Budget? && (!e.within || l.attempts < 1)) || (e.Ran? && e.verdict.HardFailure?))
  }

  /** Some later request would be admitted if nothing else happened. */
  ghost predicate Admitting(l: Limits, s: System, p: string) {
    exists later :: later >= s.clock && Admits(l.policy, BreakerOf(s, p), later)
  }

  lemma StepBreaker(l: Limits, s: System, e: Event, p: string)
    requires Enabled(s, e)
    ensures BreakerOf(Apply(l, s, e), p) == if Target(s, e) == Some(p) then BreakerAfter(l, BreakerOf(s, p), e) else BreakerOf(s, p)
    ensures StatIn(Apply(l, s, e).stats, p) ==
      if Target(s, e) == Some(p) then StatsAfter(l, BreakerOf(s, p), s.callers[e.c], StatIn(s.stats, p), e) else StatIn(s.stats, p)
  {
  }

  /** Only a report ends the wait: everything else leaves a pending breaker as it is, and admits nobody. */
  lemma PendingStays(l: Limits, s: System, e: Event, p: string)
    requires Enabled(s, e) && Pending(s, p)
    ensures !AdmittedAt(l, s, e, p)
    ensures !Reports(s, e, p) ==> BreakerOf(Apply(l, s, e), p) == BreakerOf(s, p)
    ensures Reports(s, e, p) ==> !Pending(Apply(l, s, e), p)
  {
    StepBreaker(l, s, e, p);
  }

  /** A breaker with no trial out stays that way until a request is admitted. */
  lemma FreeStays(l: Limits, s: System, e: Event, p: string)
    requires Enabled(s, e) && !Pending(s, p)
    ensures !AdmittedAt(l, s, e, p) ==> !Pending(Apply(l, s, e), p)
  {
    StepBreaker(l, s, e, p);
  }

  lemma {:induction false} NothingUntilReport(l: Limits, states: seq<System>, events: seq<Event>, p: string, i: nat)
    requires Continues(l, states, events) && Pending(states[0], p) && i <= |events|
    requires forall j :: 0 <= j < i ==> !Reports(states[j], events[j], p)
    ensures BreakerOf(states[i], p) == BreakerOf(states[0], p)
    ensures forall j :: 0 <= j < i ==> !AdmittedAt(l, states[j], events[j], p)
  {
    hide Apply, Enabled;
    if i > 0 {
      NothingUntilReport(l, states, events, p, i - 1);
      assert StepAt(l, states, events, i - 1);
      PendingStays(l, states[i - 1], events[i - 1], p);
    }
  }

  lemma {:induction false} FreeUntilAdmitted(l: Limits, states: seq<System>, events: seq<Event>, p: string, j: nat, i: nat)
    requires Continues(l, states, events) && j <= i <= |events| && !Pending(states[j], p)
    requires forall k :: j <= k < i ==> !AdmittedAt(l, states[k], events[k], p)
    ensures !Pending(states[i], p)
  {
    hide Apply, Enabled;
    if j < i {
      FreeUntilAdmitted(l, states, events, p, j, i - 1);
      assert StepAt(l, states, events, i - 1);
      FreeStays(l, states[i - 1], events[i - 1], p);
    }
  }

  /**
    * While a trial is pending, over every continuation: a request is admitted, or would be, if and only if
    * some call has reported a success or a retryable failure in between.
    */
  lemma RecoversExactlyWhen(l: Limits, states: seq<System>, events: seq<Event>, p: string)
    requires Continues(l, states, events) && Pending(states[0], p)
    ensures (exists k :: 0 <= k < |events| && AdmittedAt(l, states[k], events[k], p)) || Admitting(l, states[|events|], p)
       <==> exists j :: 0 <= j < |events| && Reports(states[j], events[j], p)
  {
    hide Apply, Enabled;
    var n := |events|;
    RecoversIff(l.policy, BreakerOf(states[n], p), states[n].clock);
    if j :| 0 <= j < n && Reports(states[j], events[j], p) {
      var first := FirstReport(states, events, p, j);
      NothingUntilReport(l, states, events, p, first);
      assert StepAt(l, states, events, first);
      PendingStays(l, states[first], events[first], p);
      if forall k :: first + 1 <= k < n ==> !AdmittedAt(l, states[k], events[k], p) {
        FreeUntilAdmitted(l, states, events, p, first + 1, n);
      }
    } else {
      NothingUntilReport(l, states, events, p, n);
    }
  }

  lemma FirstReport(states: seq<System>, events: seq<Event>, p: string, j: nat) returns (first: nat)
    requires j < |events| && |states| == |events| + 1 && Reports(states[j], events[j], p)
    ensures first <= j && Reports(states[first], events[first], p)
    ensures forall k :: 0 <= k < first ==> !Reports(states[k], events[k], p)
    decreases j
  {
    if k :| 0 <= k < j && Reports(states[k], events[k], p) {
      first := FirstReport(states, events, p, k);
    } else {
      first := j;
    }
  }

  // ---- a trial nobody will report on ----

  /** The trial is out, and no call is left that could report. */
  ghost predicate Stranded(s: System, p: string) {
    Pending(s, p) && !SomeInFlight(s, p)
  }

  /** A call comes to be in flight at p only by being admitted there. */
  lemma FlightStarts(l: Limits, s: System, e: Event, p: string, c: nat)
    requires Enabled(s, e) && c < |Apply(l, s, e).callers| && InFlight(Apply(l, s, e).callers[c], p)
    ensures AdmittedAt(l, s, e, p) || (c < |s.callers| && InFlight(s.callers[c], p))
  {
  }

  /** No continuation whatever admits another request to a stranded provider, or changes its breaker. */
  lemma {:induction false} StrandedForever(l: Limits, states: seq<System>, events: seq<Event>, p: string, i: nat)
    requires Continues(l, states, events) && Stranded(states[0], p) && i <= |events|
    ensures Stranded(states[i], p) && BreakerOf(states[i], p) == BreakerOf(states[0], p) && !Admitting(l, states[i], p)
    ensures forall j :: 0 <= j < i ==> !AdmittedAt(l, states[j], events[j], p)
  {
    hide Apply, Enabled, InFlight;
    if i > 0 {
      StrandedForever(l, states, events, p, i - 1);
      assert StepAt(l, states, events, i - 1);
      StrandedStays(l, states[i - 1], events[i - 1], p);
    }
    RecoversIff(l.policy, BreakerOf(states[i], p), states[i].clock);
  }

  lemma StrandedStays(l: Limits, s: System, e: Event, p: string)
    requires Enabled(s, e) && Stranded(s, p)
    ensures Stranded(Apply(l, s, e), p) && BreakerOf(Apply(l, s, e), p) == BreakerOf(s, p) && !AdmittedAt(l, s, e, p)
  {
    PendingStays(l, s, e, p);
    assert !Reports(s, e, p);
    hide Apply, InFlight;
    forall c | 0 <= c < |Apply(l, s, e).callers|
      ensures !InFlight(Apply(l, s, e).callers[c], p)
    {
      if InFlight(Apply(l, s, e).callers[c], p) {
        FlightStarts(l, s, e, p, c);
      }
    }
  }

  /** The last call in flight, leaving on a spent budget or a hard failure, strands the provider. */
  lemma SilentLeaveStrands(l: Limits, s: System, e: Event, p: string)
    requires Enabled(s, e) && Pending(s, p) && LeavesSilently(l, s, e, p)
    requires forall c :: 0 <= c < |s.callers| && c != e.c ==> !InFlight(s.callers[c], p)
    ensures Stranded(Apply(l, s, e), p)
  {
    PendingStays(l, s, e, p);
    var s' := Apply(l, s, e);
    forall c | 0 <= c < |s'.callers|
      ensures !InFlight(s'.callers[c], p)
    {
      assert c != e.c ==> s'.callers[c] == s.callers[c];
    }
  }

  /** And nothing else does: a provider gets stranded only after a call left it silently. */
  lemma {:induction false} OnlySilentLeaves(l: Limits, states: seq<System>, events: seq<Event>, p: string, i: nat)
    requires Execution(l, states, events) && i <= |events|
    ensures Stranded(states[i], p) ==> exists j :: 0 <= j < i && LeavesSilently(l, states[j], events[j], p)
  {
    hide Apply, Enabled, Stranded, LeavesSilently;
    if i == 0 {
      NotStrandedAtStart(p);
    } else {
      OnlySilentLeaves(l, states, events, p, i - 1);
      assert StepAt(l, states, events, i - 1);
      if Stranded(states[i], p) {
        StrandingStep(l, states[i - 1], events[i - 1], p);
      }
    }
  }

  lemma NotStrandedAtStart(p: string)
    ensures !Stranded(START, p)
  {
  }

  lemma StrandingStep(l: Limits, s: System, e: Event, p: string)
    requires Enabled(s, e) && Stranded(Apply(l, s, e), p)
    ensures Stranded(s, p) || LeavesSilently(l, s, e, p)
  {
    var s' := Apply(l, s, e);
    if !Pending(s, p) {
      FreeStays(l, s, e, p);
      assert AdmittedAt(l, s, e, p);
      assert InFlight(s'.callers[e.c], p);
      assert false;
    } else if c :| 0 <= c < |s.callers| && InFlight(s.callers[c], p) {
      PendingStays(l, s, e, p);
      assert !InFlight(s'.callers[c], p);
      assert !e.Arrive? && e.c == c;
    }
  }

  /** In flight at p with a report still to come: with no attempt allowed, a call that waits for the budget has none. */
  predicate CanReport(l: Limits, k: Caller, p: string) {
    InFlight(k, p) && (k.Budgeting? ==> l.attempts >= 1)
  }

  ghost predicate SomeCanReport(l: Limits, s: System, p: string) {
    exists c :: 0 <= c < |s.callers| && CanReport(l, s.callers[c], p)
  }

  lemma HopelessStays(l: Limits, s: System, e: Event, p: string)
    requires Enabled(s, e) && Pending(s, p) && !SomeCanReport(l, s, p)
    ensures Pending(Apply(l, s, e), p) && !SomeCanReport(l, Apply(l, s, e), p)
  {
    PendingStays(l, s, e, p);
    assert !e.Arrive? ==> !CanReport(l, s.callers[e.c], p);
    assert !Reports(s, e, p);
    forall c | 0 <= c < |Apply(l, s, e).callers|
      ensures !CanReport(l, Apply(l, s, e).callers[c], p)
    {
      assert c < |s.callers| ==> !CanReport(l, s.callers[c], p);
    }
  }

  lemma {:induction false} HopelessForever(l: Limits, states: seq<System>, events: seq<Event>, p: string, i: nat)
    requires Continues(l, states, events) && Pending(states[0], p) && !SomeCanReport(l, states[0], p) && i <= |events|
    ensures Pending(states[i], p) && !SomeCanReport(l, states[i], p) && !Admitting(l, states[i], p)
  {
    hide Apply, Enabled, CanReport;
    if i > 0 {
      HopelessForever(l, states, events, p, i - 1);
      assert StepAt(l, states, events, i - 1);
      HopelessStays(l, states[i - 1], events[i - 1], p);
    }
    RecoversIff(l.policy, BreakerOf(states[i], p), states[i].clock);
  }

  /** The guard exactly: a pending provider can admit again in some continuation if and only if a call that can report is in flight there. */
  lemma RecoverableIff(l: Limits, s: System, p: string)
    requires Pending(s, p)
    ensures (exists states, events :: Continues(l, states, events) && states[0] == s && Admitting(l, states[|events|], p))
       <==> SomeCanReport(l, s, p)
  {
    if states: seq<System>, events: seq<Event> :| Continues(l, states, events) && states[0] == s && Admitting(l, states[|events|], p) {
      if !SomeCanReport(l, s, p) {
        HopelessForever(l, states, events, p, |events|);
      }
    }
    if c :| 0 <= c < |s.callers| && CanReport(l, s.callers[c], p) {
      var states, events := Recovery(l, s, p, c);
    }
  }

  /** One step more at the front of a continuation. */
  lemma ContinuesFrom(l: Limits, s: System, e: Event, states: seq<System>, events: seq<Event>)
    requires Continues(l, states, events) && Enabled(s, e) && states[0] == Apply(l, s, e)
    ensures Continues(l, [s] + states, [e] + events)
  {
    var ss, es := [s] + states, [e] + events;
    forall i | 0 <= i < |es|
      ensures StepAt(l, ss, es, i)
    {
      assert i > 0 ==> StepAt(l, states, events, i - 1);
    }
  }

  lemma NoSteps(l: Limits, s: System)
    ensures Continues(l, [s], [])
  {
  }

  /** A call in flight can always come to report a success. */
  lemma Recovery(l: Limits, s: System, p: string, c: nat) returns (states: seq<System>, events: seq<Event>)
    requires c < |s.callers| && InFlight(s.callers[c], p) && Pending(s, p)
    requires s.callers[c].Budgeting? ==> l.attempts >= 1
    ensures Continues(l, states, events) && states[0] == s && Admitting(l, states[|events|], p)
    decreases if s.callers[c].Running? then 0 else 1
  {
    if s.callers[c].Running? {
      var e := Ran(c, Verdict.Success, s.clock);
      var s' := Apply(l, s, e);
      StepBreaker(l, s, e, p);
      RecoversIff(l.policy, BreakerOf(s', p), s'.clock);
      NoSteps(l, s');
      ContinuesFrom(l, s, e, [s'], []);
      states, events := [s] + [s'], [e] + [];
    } else {
      var e := if s.callers[c].Budgeting? then Budget(c, true) else Wake(c);
      var s' := Apply(l, s, e);
      StepBreaker(l, s, e, p);
      var ss, es := Recovery(l, s', p, c);
      ContinuesFrom(l, s, e, ss, es);
      states, events := [s] + ss, [e] + es;
    }
  }

  /** A threshold of one: a failing call opens the circuit, and the trial after the cooldown finds the budget spent. */
  const SHORT := Limits(Policy(1, 1000), 1)

  function StrandingEvents(p: string): seq<Event> {
    [Arrive([p]), Ask(0, 0), Budget(0, true), Ran(0, Retryable(false), 0), Arrive([p]), Ask(1, 1000), Budget(1, false)]
  }

  /** The states of that run. */
  function StrandingStates(p: string): seq<System> {
    var gone := Finished(false);
    var open := State(1, Some(0), false);
    var one, two, three := ZERO.(calls := 1), ZERO.(calls := 1, failures := 1, circuitOpens := 1, failovers := 1),
      ZERO.(calls := 1, failures := 1, circuitOpens := 1, failovers := 2, quotaSkips := 1);
    [START,
     System(map[], map[], [Asking([p], 0)], 0),
     System(map[p := FRESH], map[p := ZERO], [Budgeting([p], 0)], 0),
     System(map[p := FRESH], map[p := one], [Running([p], 0, 1)], 0),
     System(map[p := open], map[p := two], [gone], 0),
     System(map[p := open], map[p := two], [gone, Asking([p], 0)], 0),
     System(map[p := open.(trial := true)], map[p := two], [gone, Budgeting([p], 0)], 1000),
     System(map[p := open.(trial := true)], map[p := three], [gone, gone], 1000)]
  }

  lemma StrandingRun(p: string)
    ensures Execution(SHORT, StrandingStates(p), StrandingEvents(p)) && Stranded(StrandingStates(p)[7], p)
  {
    forall i | 0 <= i < |StrandingEvents(p)|
      ensures StepAt(SHORT, StrandingStates(p), StrandingEvents(p), i)
    {
      StrandingStepAt(p, i);
    }
  }

  lemma StrandingStepAt(p: string, i: nat)
    requires i < 7
    ensures StepAt(SHORT, StrandingStates(p), StrandingEvents(p), i)
  {
    var s, e, s' := StrandingStates(p)[i], StrandingEvents(p)[i], StrandingStates(p)[i + 1];
    assert Enabled(s, e);
    assert Apply(SHORT, s, e).breakers == s'.breakers;
    assert Apply(SHORT, s, e).stats == s'.stats;
  }

  // ---- what the statistics count ----

  /** The moves of p's breaker from closed to open in the first n steps. */
  function Openings(states: seq<System>, p: string, n: nat): nat
    requires n < |states|
  {
    if n == 0 then 0
    else Openings(states, p, n - 1) + if Opens(BreakerOf(states[n - 1], p), BreakerOf(states[n], p)) then 1 else 0
  }

  /** The calls that got past p's breaker and budget. */
  function Entries(l: Limits, states: seq<System>, events: seq<Event>, p: string, n: nat): nat
    requires n <= |events| <= |states|
  {
    if n == 0 then 0
    else
      var s, e := states[n - 1], events[n - 1];
      Entries(l, states, events, p, n - 1) +
      if Enabled(s, e) && Target(s, e) == Some(p) && e.Budget? && e.within && l.attempts >= 1 then 1 else 0
  }

  /** A call moves on from p without an answer. */
  predicate PassesBy(l: Limits, s: System, e: Event, p: string) {
    Enabled(s, e) && Target(s, e) == Some(p) && !(e.Ran? && e.verdict.Success?) && !e.Wake? &&
    Apply(l, s, e).callers[e.c] == Advance(s.callers[e.c].steps, s.callers[e.c].i)
  }

  function PassedBy(l: Limits, states: seq<System>, events: seq<Event>, p: string, n: nat): nat
    requires n <= |events| <= |states|
  {
    if n == 0 then 0
    else PassedBy(l, states, events, p, n - 1) + if PassesBy(l, states[n - 1], events[n - 1], p) then 1 else 0
  }

  predicate Sleeps(k: Caller, p: string) {
    k.Sleeping? && AtStep(k) && ProviderOf(k) == p
  }

  function Sleepers(callers: seq<Caller>, p: string): nat {
    if callers == [] then 0 else Sleepers(callers[..|callers| - 1], p) + if Sleeps(callers[|callers| - 1], p) then 1 else 0
  }

  lemma {:induction false} SleepersChange(callers: seq<Caller>, c: nat, k: Caller, p: string)
    requires c < |callers|
    ensures Sleepers(callers[c := k], p) + (if Sleeps(callers[c], p) then 1 else 0) == Sleepers(callers, p) + if Sleeps(k, p) then 1 else 0
    decreases |callers|
  {
    var n := |callers| - 1;
    if c < n {
      SleepersChange(callers[..n], c, k, p);
      assert callers[c := k][..n] == callers[..n][c := k];
    } else {
      assert callers[c := k][..n] == callers[..n];
    }
  }

  lemma SleepersJoin(callers: seq<Caller>, k: Caller, p: string)
    ensures Sleepers(callers + [k], p) == Sleepers(callers, p) + if Sleeps(k, p) then 1 else 0
  {
    assert (callers + [k])[..|callers|] == callers;
  }

  /** Calls minus retries counts entries, but for the calls asleep before a retry that is counted already. */
  ghost predicate Tallied(l: Limits, st: Stats, openings: nat, entries: nat, passed: nat, sleepers: nat) {
    && st.circuitOpens == openings
    && st.calls + sleepers == entries + st.retries
    && (l.attempts >= 1 ==> st.failovers == passed)
  }

  lemma SleepersStep(l: Limits, s: System, e: Event, p: string)
    requires Enabled(s, e)
    ensures Sleepers(Apply(l, s, e).callers, p) ==
      if Target(s, e) != Some(p) then Sleepers(s.callers, p)
      else
        var b, k := BreakerOf(s, p), s.callers[e.c];
        Sleepers(s.callers, p) + (if CallerAfter(l, b, k, e).Sleeping? then 1 else 0) - (if e.Wake? then 1 else 0)
  {
    hide Sleepers;
    if e.Arrive? {
      SleepersJoin(s.callers, if e.steps == [] then Finished(false) else Asking(e.steps, 0), p);
    } else {
      var k := s.callers[e.c];
      SleepersChange(s.callers, e.c, CallerAfter(l, BreakerOf(s, ProviderOf(k)), k, e), p);
    }
  }

  /**
    * Over every interleaving from the start: circuitOpens is the number of times the breaker went from closed to open,
    * calls minus retries the number of calls let through to the provider, and failovers the number that moved on.
    */
  lemma {:induction false} StatsTell(l: Limits, states: seq<System>, events: seq<Event>, p: string, n: nat)
    requires Execution(l, states, events) && n <= |events|
    ensures Tallied(l, StatIn(states[n].stats, p), Openings(states, p, n), Entries(l, states, events, p, n),
                    PassedBy(l, states, events, p, n), Sleepers(states[n].callers, p))
  {
    if n > 0 {
      hide Apply, Enabled, Tallied, Openings, Entries, PassedBy, Sleepers;
      StatsTell(l, states, events, p, n - 1);
      assert StepAt(l, states, events, n - 1);
      TallyStep(l, states, events, p, n);
    }
  }

  lemma TallyStep(l: Limits, states: seq<System>, events: seq<Event>, p: string, n: nat)
    requires 0 < n <= |events| && |states| == |events| + 1 && StepAt(l, states, events, n - 1)
    requires Tallied(l, StatIn(states[n - 1].stats, p), Openings(states, p, n - 1), Entries(l, states, events, p, n - 1),
                     PassedBy(l, states, events, p, n - 1), Sleepers(states[n - 1].callers, p))
    ensures Tallied(l, StatIn(states[n].stats, p), Openings(states, p, n), Entries(l, states, events, p, n),
                    PassedBy(l, states, events, p, n), Sleepers(states[n].callers, p))
  {
    hide Sleepers;
    var s, e := states[n - 1], events[n - 1];
    StepBreaker(l, s, e, p);
    SleepersStep(l, s, e, p);
    if Target(s, e) == Some(p) {
      var k := s.callers[e.c];
      assert states[n].callers[e.c] == CallerAfter(l, BreakerOf(s, p), k, e);
    }
  }
}
