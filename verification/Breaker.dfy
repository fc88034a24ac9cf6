// workers/adapters/providerGuard.ts: the per-provider circuit breaker.
module CircuitBreaker {
  import opened Wrappers

  datatype Policy = Policy(failureThreshold: int, cooldownMs: int)

  datatype State = State(failures: nat, openedAt: Option<int>, trial: bool)

  datatype Mode = Closed | Open | HalfOpen

  const FRESH := State(0, None, false)

  predicate CoolEnough(p: Policy, b: State, now: int)
    requires b.openedAt.Some?
  {
    now - b.openedAt.value >= p.cooldownMs
  }

  function ModeAt(p: Policy, b: State, now: int): Mode {
    if b.openedAt.None? then Closed else if CoolEnough(p, b, now) then HalfOpen else Open
  }

  predicate Admits(p: Policy, b: State, now: int) {
    b.openedAt.None? || (CoolEnough(p, b, now) && !b.trial)
  }

  function AfterAllow(p: Policy, b: State, now: int): State {
    if b.openedAt.Some? && Admits(p, b, now) then b.(trial := true) else b
  }

  predicate Trips(p: Policy, b: State) {
    b.trial || b.failures + 1 >= p.failureThreshold
  }

  function AfterFailure(p: Policy, b: State, now: int): State {
    if Trips(p, b) then State(b.failures + 1, Some(now), false) else b.(failures := b.failures + 1)
  }

  class Breaker {
    const policy: Policy
    var failures: nat
    var openedAt: Option<int>
    var trial: bool

    constructor (policy: Policy)
      ensures this.policy == policy && Abs() == FRESH
    {
      this.policy := policy;
      failures, openedAt, trial := 0, None, false;
    }

    function Abs(): State
      reads this
    {
      State(failures, openedAt, trial)
    }

    method Allow(now: int) returns (r: bool)
      modifies this
      ensures r == Admits(policy, old(Abs()), now) && Abs() == AfterAllow(policy, old(Abs()), now)
    {
      if openedAt.None? {
        return true;
      }
      if now - openedAt.value < policy.cooldownMs {
        return false;
      }
      if trial {
        return false;
      }
      trial := true;
      return true;
    }

    method Success()
      modifies this
      ensures Abs() == FRESH
    {
      failures, openedAt, trial := 0, None, false;
    }

    /** True when this failure opens a closed circuit. */
    method Failure(now: int) returns (newlyOpen: bool)
      modifies this
      ensures Abs() == AfterFailure(policy, old(Abs()), now)
      ensures newlyOpen <==> old(openedAt).None? && openedAt.Some?
    {
      failures := failures + 1;
      if trial || failures >= policy.failureThreshold {
        var wasClosed := openedAt.None?;
        openedAt, trial := Some(now), false;
        return wasClosed;
      }
      return false;
    }
  }

  // ---- every interleaving of the three calls ----

  datatype Event = Allowed(at: int) | Succeeded(at: int) | Failed(at: int)

  function After(p: Policy, b: State, e: Event): State {
    match e
    case Allowed(t) => AfterAllow(p, b, t)
    case Succeeded(_) => FRESH
    case Failed(t) => AfterFailure(p, b, t)
  }

  /** A history from a fresh breaker under a clock that never runs back. */
  ghost predicate History(p: Policy, states: seq<State>, events: seq<Event>) {
    && |states| == |events| + 1 && states[0] == FRESH
    && (forall i :: 0 <= i < |events| ==> states[i + 1] == After(p, states[i], events[i]))
    && (forall i, j :: 0 <= i <= j < |events| ==> events[i].at <= events[j].at)
  }

  /** A closed circuit is below its threshold; a trial belongs to an open circuit. */
  lemma {:induction false} Consistent(p: Policy, states: seq<State>, events: seq<Event>, i: nat)
    requires History(p, states, events) && i <= |events| && p.failureThreshold >= 1
    ensures states[i].openedAt.None? ==> states[i].failures < p.failureThreshold
    ensures states[i].trial ==> states[i].openedAt.Some?
  {
    if i > 0 {
      Consistent(p, states, events, i - 1);
      assert states[i] == After(p, states[i - 1], events[i - 1]);
    }
  }

  /** Event i lets a half-open trial through. */
  ghost predicate TrialAt(p: Policy, states: seq<State>, events: seq<Event>, i: nat)
    requires |states| == |events| + 1
  {
    i < |events| && events[i].Allowed? && states[i].openedAt.Some? && Admits(p, states[i], events[i].at)
  }

  ghost predicate NoSuccess(events: seq<Event>, i: nat, j: nat) {
    forall k :: i <= k < j && k < |events| ==> !events[k].Succeeded?
  }

  /** After a trial is let through and until a success, the circuit is open and either the trial is pending
      or the opening is no older than the trial. */
  lemma {:induction false} SinceTrial(p: Policy, states: seq<State>, events: seq<Event>, i: nat, j: nat)
    requires History(p, states, events) && TrialAt(p, states, events, i)
    requires i < j <= |events| && NoSuccess(events, i, j)
    ensures states[j].openedAt.Some? && (states[j].trial || states[j].openedAt.value >= events[i].at)
    decreases j
  {
    assert states[j] == After(p, states[j - 1], events[j - 1]);
    if j > i + 1 {
      SinceTrial(p, states, events, i, j - 1);
      assert events[i].at <= events[j - 1].at;
    }
  }

  /** Two trials with no success between them are at least one cooldown apart. */
  lemma TrialsSpaced(p: Policy, states: seq<State>, events: seq<Event>, i: nat, j: nat)
    requires History(p, states, events) && TrialAt(p, states, events, i) && TrialAt(p, states, events, j)
    requires i < j && NoSuccess(events, i, j)
    ensures events[j].at - events[i].at >= p.cooldownMs
  {
    SinceTrial(p, states, events, i, j);
  }

  /** A breaker lets some later call through exactly when it is closed or has no trial pending. */
  lemma RecoversIff(p: Policy, b: State, now: int)
    ensures (exists later :: later >= now && Admits(p, b, later)) <==> b.openedAt.None? || !b.trial
  {
    if b.openedAt.None? {
      assert Admits(p, b, now);
    } else if !b.trial {
      var due := b.openedAt.value + p.cooldownMs;
      assert Admits(p, b, if due >= now then due else now);
    }
  }

  // ---- the breaker's answers, read off the events alone ----

  /** How many calls failed since the last one that succeeded. */
  ghost function FailedSince(events: seq<Event>): nat {
    if events == [] then 0
    else
      match events[|events| - 1]
      case Succeeded(_) => 0
      case Failed(_) => FailedSince(events[..|events| - 1]) + 1
      case Allowed(_) => FailedSince(events[..|events| - 1])
  }

  /** When the last failure was reported. */
  ghost function LastFailed(events: seq<Event>): Option<int> {
    if events == [] then None
    else if events[|events| - 1].Failed? then Some(events[|events| - 1].at)
    else LastFailed(events[..|events| - 1])
  }

  /** A threshold below one opens the circuit at the first failure, as one does. */
  function Limit(p: Policy): nat {
    if p.failureThreshold < 1 then 1 else p.failureThreshold
  }

  /** Since the last report, somebody asked a circuit at its limit that had cooled down. */
  ghost predicate TrialOut(p: Policy, events: seq<Event>) {
    if events == [] || !events[|events| - 1].Allowed? then false
    else
      var before := events[..|events| - 1];
      TrialOut(p, before) || (FailedSince(before) >= Limit(p) && CooledSince(p, before, events[|events| - 1].at))
  }

  ghost predicate CooledSince(p: Policy, events: seq<Event>, now: int) {
    LastFailed(events).Some? && now - LastFailed(events).value >= p.cooldownMs
  }

  lemma {:induction false} ReadOff(p: Policy, states: seq<State>, events: seq<Event>, i: nat)
    requires History(p, states, events) && i <= |events|
    ensures states[i].failures == FailedSince(events[..i])
    ensures states[i].openedAt == if FailedSince(events[..i]) >= Limit(p) then LastFailed(events[..i]) else None
    ensures FailedSince(events[..i]) > 0 ==> LastFailed(events[..i]).Some?
    ensures states[i].trial == TrialOut(p, events[..i])
    ensures TrialOut(p, events[..i]) ==> FailedSince(events[..i]) >= Limit(p)
  {
    if i > 0 {
      ReadOff(p, states, events, i - 1);
      assert states[i] == After(p, states[i - 1], events[i - 1]);
      assert events[..i][..i - 1] == events[..i - 1];
    }
  }

  /** The circuit is open exactly when at least the threshold of calls failed since the last success, and then since the
      last of these failures. */
  lemma OpenIff(p: Policy, states: seq<State>, events: seq<Event>, i: nat)
    requires History(p, states, events) && i <= |events|
    ensures states[i].openedAt.Some? <==> FailedSince(events[..i]) >= Limit(p)
    ensures states[i].openedAt.Some? ==> states[i].openedAt == LastFailed(events[..i])
  {
    ReadOff(p, states, events, i);
  }

  /** A call is let in exactly while fewer than the threshold failed since the last success, or else once the cooldown has
      passed since the last failure and nobody was let in on trial before. */
  lemma AdmitsIff(p: Policy, states: seq<State>, events: seq<Event>, i: nat, now: int)
    requires History(p, states, events) && i <= |events|
    ensures Admits(p, states[i], now) <==>
      (FailedSince(events[..i]) < Limit(p) || (CooledSince(p, events[..i], now) && !TrialOut(p, events[..i])))
  {
    ReadOff(p, states, events, i);
  }
}
