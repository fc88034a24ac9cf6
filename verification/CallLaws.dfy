// workers/adapters/providerGuard.ts: what any number of concurrent calls do, told from the events alone. Each provider's
// breaker is that of the reports it got, whoever made them.
module CallLaws {
  import opened Wrappers
  import opened CircuitBreaker
  import opened ProviderCall
  import opened CallSystem

  /** What the breaker of p is told by one event: questions, successes and retryable failures, but no hard ones. */
  ghost function ToldBy(s: System, e: CallSystem.Event, p: string): seq<CircuitBreaker.Event> {
    if !Enabled(s, e) || Target(s, e) != Some(p) then []
    else
      match e
      case Ask(_, now) => [Allowed(now)]
      case Ran(_, verdict, now) =>
        if verdict.Success? then [Succeeded(now)] else if verdict.Retryable? then [CircuitBreaker.Event.Failed(now)] else []
      case _ => []
  }

  /** All that the breaker of p was told in the first n steps. */
  ghost function ToldUpTo(states: seq<System>, events: seq<CallSystem.Event>, p: string, n: nat): seq<CircuitBreaker.Event>
    requires n <= |events| < |states|
  {
    if n == 0 then [] else ToldUpTo(states, events, p, n - 1) + ToldBy(states[n - 1], events[n - 1], p)
  }

  lemma OneMoreTold(policy: Policy, bs: seq<State>, es: seq<CircuitBreaker.Event>, e: CircuitBreaker.Event)
    requires History(policy, bs, es) && forall i :: 0 <= i < |es| ==> es[i].at <= e.at
    ensures History(policy, bs + [After(policy, bs[|es|], e)], es + [e])
  {
    hide After;
    var more, told := bs + [After(policy, bs[|es|], e)], es + [e];
    forall i | 0 <= i < |told|
      ensures more[i + 1] == After(policy, more[i], told[i])
    {
      if i < |es| {
        assert more[i] == bs[i] && more[i + 1] == bs[i + 1] && told[i] == es[i];
      }
    }
  }

  lemma StepTold(l: Limits, s: System, e: CallSystem.Event, p: string)
    requires Enabled(s, e)
    ensures var told := ToldBy(s, e, p);
      && |told| <= 1 && s.clock <= Apply(l, s, e).clock
      && BreakerOf(Apply(l, s, e), p) == (if told == [] then BreakerOf(s, p) else After(l.policy, BreakerOf(s, p), told[0]))
      && (told != [] ==> s.clock <= told[0].at == Apply(l, s, e).clock)
  {
    hide AfterAllow, AfterFailure, StatsAfter, CallerAfter;
    StepBreaker(l, s, e, p);
  }

  /** In every execution each provider's breaker went through the history of what it was told. */
  lemma {:induction false} BreakerIsTold(l: Limits, states: seq<System>, events: seq<CallSystem.Event>, p: string, n: nat)
      returns (bs: seq<State>)
    requires Execution(l, states, events) && n <= |events|
    ensures var told := ToldUpTo(states, events, p, n);
      && History(l.policy, bs, told) && |bs| == |told| + 1 && bs[|told|] == BreakerOf(states[n], p)
      && forall i :: 0 <= i < |told| ==> told[i].at <= states[n].clock
  {
    hide Apply, Enabled, After, ToldBy, History;
    if n == 0 {
      bs := [FRESH];
      FreshHistory(l.policy);
    } else {
      assert StepAt(l, states, events, n - 1);
      bs := BreakerIsTold(l, states, events, p, n - 1);
      StepTold(l, states[n - 1], events[n - 1], p);
      var told, more := ToldUpTo(states, events, p, n - 1), ToldBy(states[n - 1], events[n - 1], p);
      HistoryLength(l.policy, bs, told);
      if more == [] {
        assert told + more == told;
      } else {
        assert more == [more[0]];
        OneMoreTold(l.policy, bs, told, more[0]);
        bs := bs + [After(l.policy, bs[|told|], more[0])];
      }
    }
  }

  lemma FreshHistory(policy: Policy)
    ensures History(policy, [FRESH], [])
  {
  }

  lemma HistoryLength(policy: Policy, bs: seq<State>, es: seq<CircuitBreaker.Event>)
    requires History(policy, bs, es)
    ensures |bs| == |es| + 1
  {
  }

  /** Over every interleaving: a provider's circuit is open exactly when at least the threshold of retryable failures were
      reported to it, by whatever calls, since the last success. */
  lemma CircuitOpensIff(l: Limits, states: seq<System>, events: seq<CallSystem.Event>, p: string, n: nat)
    requires Execution(l, states, events) && n <= |events|
    ensures BreakerOf(states[n], p).openedAt.Some? <==> FailedSince(ToldUpTo(states, events, p, n)) >= Limit(l.policy)
  {
    hide BreakerOf, History;
    var bs := BreakerIsTold(l, states, events, p, n);
    var told := ToldUpTo(states, events, p, n);
    OpenIff(l.policy, bs, told, |told|);
    assert told[..|told|] == told;
  }

  /** Call c takes a step about provider p: events[n] finds it as k. */
  ghost predicate Finds(states: seq<System>, events: seq<CallSystem.Event>, n: nat, c: nat, k: Caller, p: string) {
    n < |events| < |states| && c < |states[n].callers| && states[n].callers[c] == k && AtStep(k) && k.steps[k.i] == p
  }

  /** The call turns to its next provider, or has none left and fails. */
  ghost predicate MovesOn(k: Caller, k': Caller)
    requires AtStep(k)
  {
    k' == if k.i + 1 < |k.steps| then Asking(k.steps, k.i + 1) else Finished(false)
  }

  /** A call that asks is let in exactly when the provider's history lets it; otherwise it moves on. */
  lemma AskIff(l: Limits, states: seq<System>, events: seq<CallSystem.Event>, n: nat, c: nat, k: Caller, p: string, now: int)
    requires Execution(l, states, events) && Finds(states, events, n, c, k, p) && events[n] == Ask(c, now)
    ensures c < |states[n + 1].callers|
    ensures var told, k' := ToldUpTo(states, events, p, n), states[n + 1].callers[c];
      if FailedSince(told) < Limit(l.policy) || (CooledSince(l.policy, told, now) && !TrialOut(l.policy, told))
      then k' == Budgeting(k.steps, k.i) else MovesOn(k, k')
  {
    hide FailedSince, CooledSince, TrialOut, ToldUpTo, Admits, BreakerAfter, StatsAfter, History;
    assert StepAt(l, states, events, n);
    var bs := BreakerIsTold(l, states, events, p, n);
    var told := ToldUpTo(states, events, p, n);
    AdmitsIff(l.policy, bs, told, |told|, now);
    assert told[..|told|] == told;
  }

  /** After a run: a success ends the call well; a retryable failure is retried exactly while attempts are left and its
      report leaves the circuit closed, or cooled down; anything else moves on. */
  lemma RanIff(l: Limits, states: seq<System>, events: seq<CallSystem.Event>, n: nat, c: nat, k: Caller, p: string, verdict: Verdict, now: int)
    requires Execution(l, states, events) && Finds(states, events, n, c, k, p) && events[n] == Ran(c, verdict, now)
    ensures k.Running? && c < |states[n + 1].callers|
    ensures var told, k' := ToldUpTo(states, events, p, n + 1), states[n + 1].callers[c];
      if verdict.Success? then k' == Finished(true)
      else if verdict.Retryable? && k.attempt != l.attempts && (FailedSince(told) < Limit(l.policy) || CooledSince(l.policy, told, now))
      then k' == Sleeping(k.steps, k.i, k.attempt) else MovesOn(k, k')
  {
    hide FailedSince, ToldUpTo, AfterFailure, StatsAfter, History;
    assert StepAt(l, states, events, n);
    var bs := BreakerIsTold(l, states, events, p, n + 1);
    var told := ToldUpTo(states, events, p, n + 1);
    OpenIff(l.policy, bs, told, |told|);
    assert told[..|told|] == told;
    StepBreaker(l, states[n], events[n], p);
  }

  /** A run is one of the attempts allowed, and a sleeper has one left. */
  ghost predicate WithinAttempts(l: Limits, k: Caller) {
    && (k.Running? ==> 1 <= k.attempt <= l.attempts)
    && (k.Sleeping? ==> 1 <= k.attempt < l.attempts)
  }

  lemma {:induction false} AttemptsBounded(l: Limits, states: seq<System>, events: seq<CallSystem.Event>, n: nat)
    requires Execution(l, states, events) && n <= |events|
    ensures forall c :: 0 <= c < |states[n].callers| ==> WithinAttempts(l, states[n].callers[c])
  {
    hide Apply;
    if n > 0 {
      AttemptsBounded(l, states, events, n - 1);
      assert StepAt(l, states, events, n - 1);
      StepWithin(l, states[n - 1], events[n - 1]);
    }
  }

  lemma StepWithin(l: Limits, s: System, e: CallSystem.Event)
    requires Enabled(s, e) && forall c :: 0 <= c < |s.callers| ==> WithinAttempts(l, s.callers[c])
    ensures forall c :: 0 <= c < |Apply(l, s, e).callers| ==> WithinAttempts(l, Apply(l, s, e).callers[c])
  {
    hide StatsAfter, BreakerAfter, AfterFailure, Admits;
  }

  /** Some run of call c succeeded before step n. */
  ghost predicate SucceededBefore(events: seq<CallSystem.Event>, c: nat, n: nat) {
    exists j :: 0 <= j < n && j < |events| && events[j].Ran? && events[j].c == c && events[j].verdict.Success?
  }

  /** A call ends well exactly when one of its runs succeeded. */
  lemma {:induction false} EndsWellIff(l: Limits, states: seq<System>, events: seq<CallSystem.Event>, n: nat, c: nat)
    requires Execution(l, states, events) && n <= |events|
    ensures (c < |states[n].callers| && states[n].callers[c] == Finished(true)) <==> SucceededBefore(events, c, n)
  {
    hide Apply, Enabled;
    if n > 0 {
      EndsWellIff(l, states, events, n - 1, c);
      assert StepAt(l, states, events, n - 1);
      WellAfter(l, states[n - 1], events[n - 1], c);
    }
  }

  lemma WellAfter(l: Limits, s: System, e: CallSystem.Event, c: nat)
    requires Enabled(s, e)
    ensures (c < |Apply(l, s, e).callers| && Apply(l, s, e).callers[c] == Finished(true)) <==>
      ((c < |s.callers| && s.callers[c] == Finished(true)) || (e.Ran? && e.c == c && e.verdict.Success?))
  {
    hide StatsAfter, BreakerAfter, AfterFailure, Admits;
  }
}
