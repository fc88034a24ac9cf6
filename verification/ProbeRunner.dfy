// apps/api/src/intake/probe.ts, createProbeRunner: memoised probes behind a counting semaphore.
// A transition is what runs between two awaits.
module ProbeRunner {
  type Key = string

  /** Queued: its resolver is in `waiters`. Woken: the resolver was called, the task has not run yet. */
  datatype Phase = Queued | Woken | Running | Finished

  datatype Task = Task(key: Key, phase: Phase)

  datatype System = System(tasks: seq<Task>, waiters: seq<nat>, running: int, memo: map<Key, nat>)

  datatype Event = Arrive(key: Key) | Resume(id: nat) | Finish(id: nat)

  const START := System([], [], 0, map[])

  /** `while (running >= concurrency) await ...; running++` for a task that is neither queued nor running. */
  function Enter(concurrency: int, s: System, id: nat): System
    requires id < |s.tasks|
  {
    if s.running >= concurrency
    then s.(tasks := s.tasks[id := s.tasks[id].(phase := Queued)], waiters := s.waiters + [id])
    else s.(tasks := s.tasks[id := s.tasks[id].(phase := Running)], running := s.running + 1)
  }

  function Done(s: System, id: nat): System
    requires id < |s.tasks|
  {
    s.(tasks := s.tasks[id := s.tasks[id].(phase := Finished)], running := s.running - 1)
  }

  /** `waiters.shift()?.()` */
  function WakeNext(s: System): System {
    if s.waiters == [] || s.waiters[0] >= |s.tasks| then s
    else
      var next := s.waiters[0];
      s.(tasks := s.tasks[next := s.tasks[next].(phase := Woken)], waiters := s.waiters[1..])
  }

  /** `running--; waiters.shift()?.()` */
  function Leave(s: System, id: nat): System
    requires id < |s.tasks|
  {
    WakeNext(Done(s, id))
  }

  ghost predicate Step(concurrency: int, s: System, e: Event, s': System) {
    match e
    case Arrive(key) =>
      if key in s.memo then s' == s
      else
        var id := |s.tasks|;
        s' == Enter(concurrency, Arrived(s, key), id)
    case Resume(id) =>
      id < |s.tasks| && s.tasks[id].phase == Woken && s' == Enter(concurrency, s, id)
    case Finish(id) =>
      id < |s.tasks| && s.tasks[id].phase == Running && s' == Leave(s, id)
  }

  ghost predicate Execution(concurrency: int, states: seq<System>, events: seq<Event>) {
    |states| == |events| + 1 && states[0] == START &&
    forall i :: 0 <= i < |events| ==> Step(concurrency, states[i], events[i], states[i + 1])
  }

  // ---- counting tasks by phase ----

  ghost function Count(tasks: seq<Task>, p: Phase): nat {
    if tasks == [] then 0
    else
      var here := tasks[|tasks| - 1].phase == p;
      Count(tasks[..|tasks| - 1], p) + if here then 1 else 0
  }

  lemma {:induction false} CountChange(tasks: seq<Task>, id: nat, to: Phase, p: Phase)
    requires id < |tasks|
    ensures Count(tasks[id := tasks[id].(phase := to)], p)
         == Count(tasks, p) - (if tasks[id].phase == p then 1 else 0) + (if to == p then 1 else 0)
  {
    var k := |tasks| - 1;
    var changed := tasks[id := tasks[id].(phase := to)];
    if id < k {
      CountChange(tasks[..k], id, to, p);
      assert changed[..k] == tasks[..k][id := tasks[id].(phase := to)];
    } else {
      assert changed[..k] == tasks[..k];
    }
  }

  lemma CountAdd(tasks: seq<Task>, t: Task, p: Phase)
    ensures Count(tasks + [t], p) == Count(tasks, p) + if t.phase == p then 1 else 0
  {
    assert (tasks + [t])[..|tasks|] == tasks;
  }

  lemma {:induction false} CountSome(tasks: seq<Task>, p: Phase)
    ensures Count(tasks, p) > 0 ==> exists id :: 0 <= id < |tasks| && tasks[id].phase == p
  {
    if tasks != [] {
      CountSome(tasks[..|tasks| - 1], p);
    }
  }

  lemma {:induction false} CountTotal(tasks: seq<Task>)
    ensures Count(tasks, Queued) + Count(tasks, Woken) + Count(tasks, Running) + Count(tasks, Finished) == |tasks|
  {
    if tasks != [] {
      CountTotal(tasks[..|tasks| - 1]);
    }
  }

  // ---- the invariant ----

  /** waiters lists exactly the queued tasks, each once. */
  ghost predicate QueueExact(s: System) {
    && (forall i :: 0 <= i < |s.waiters| ==> s.waiters[i] < |s.tasks| && s.tasks[s.waiters[i]].phase == Queued)
    && (forall i, j :: 0 <= i < j < |s.waiters| ==> s.waiters[i] != s.waiters[j])
    && (forall id :: 0 <= id < |s.tasks| && s.tasks[id].phase == Queued ==> id in s.waiters)
  }

  /** Whenever someone waits, every slot is taken by a running task or promised to a woken one. */
  ghost predicate NoWakeupLost(concurrency: int, s: System) {
    s.waiters != [] ==> s.running + Count(s.tasks, Woken) >= concurrency
  }

  ghost predicate Bounded(concurrency: int, s: System) {
    s.running == Count(s.tasks, Running) && (concurrency >= 0 ==> s.running <= concurrency)
  }

  /** One task per key. */
  ghost predicate Memoised(s: System) {
    && (forall k :: k in s.memo ==> s.memo[k] < |s.tasks| && s.tasks[s.memo[k]].key == k)
    && (forall id :: 0 <= id < |s.tasks| ==> s.tasks[id].key in s.memo && s.memo[s.tasks[id].key] == id)
  }

  ghost predicate Inv(concurrency: int, s: System) {
    QueueExact(s) && NoWakeupLost(concurrency, s) && Bounded(concurrency, s) && Memoised(s)
  }

  lemma EnterKeepsQueue(concurrency: int, s: System, id: nat)
    requires id < |s.tasks| && s.tasks[id].phase == Woken && QueueExact(s)
    ensures QueueExact(Enter(concurrency, s, id))
  {
    var s' := Enter(concurrency, s, id);
    assert id !in s.waiters;
    if s.running >= concurrency {
      assert s'.waiters[|s.waiters|] == id;
      forall k | 0 <= k < |s'.tasks| && s'.tasks[k].phase == Queued
        ensures k in s'.waiters
      {
        assert k != id ==> s.tasks[k].phase == Queued;
      }
    }
  }

  lemma PhaseKeepsMemo(s: System, s': System, id: nat, p: Phase)
    requires Memoised(s) && id < |s.tasks|
    requires s'.tasks == s.tasks[id := s.tasks[id].(phase := p)] && s'.memo == s.memo
    ensures Memoised(s')
  {
    forall k | 0 <= k < |s'.tasks|
      ensures s'.tasks[k].key == s.tasks[k].key
    {
    }
  }

  lemma EnterKeepsInv(concurrency: int, s: System, id: nat)
    requires id < |s.tasks| && s.tasks[id].phase == Woken
    requires QueueExact(s) && Bounded(concurrency, s) && Memoised(s) && NoWakeupLost(concurrency, s)
    ensures Inv(concurrency, Enter(concurrency, s, id))
  {
    EnterKeepsQueue(concurrency, s, id);
    var s' := Enter(concurrency, s, id);
    PhaseKeepsMemo(s, s', id, s'.tasks[id].phase);
    hide QueueExact, Memoised, Count;
    CountChange(s.tasks, id, s'.tasks[id].phase, Running);
    CountChange(s.tasks, id, s'.tasks[id].phase, Woken);
  }

  lemma DoneKeeps(s: System, id: nat)
    requires QueueExact(s) && Memoised(s) && id < |s.tasks| && s.tasks[id].phase == Running
    ensures QueueExact(Done(s, id)) && Memoised(Done(s, id))
  {
    var s1 := Done(s, id);
    PhaseKeepsMemo(s, s1, id, Finished);
    hide Memoised;
    forall k | 0 <= k < |s1.tasks| && s1.tasks[k].phase == Queued
      ensures k in s1.waiters
    {
      assert s.tasks[k].phase == Queued;
    }
  }

  lemma WakeKeepsMemo(s: System)
    requires Memoised(s)
    ensures Memoised(WakeNext(s))
  {
    if s.waiters != [] && s.waiters[0] < |s.tasks| {
      PhaseKeepsMemo(s, WakeNext(s), s.waiters[0], Woken);
    }
  }

  lemma WakeKeepsQueue(s: System)
    requires QueueExact(s)
    ensures QueueExact(WakeNext(s))
  {
    if s.waiters != [] {
      var s', next := WakeNext(s), s.waiters[0];
      forall k | 0 <= k < |s'.tasks| && s'.tasks[k].phase == Queued
        ensures k in s'.waiters
      {
        assert k in s.waiters && k != next;
      }
    }
  }

  lemma FinishCounts(concurrency: int, s: System, id: nat)
    requires id < |s.tasks| && s.tasks[id].phase == Running
    requires NoWakeupLost(concurrency, s) && Bounded(concurrency, s)
    requires s.waiters != [] ==> s.waiters[0] < |s.tasks| && s.tasks[s.waiters[0]].phase == Queued
    ensures NoWakeupLost(concurrency, Leave(s, id)) && Bounded(concurrency, Leave(s, id))
  {
    hide Count;
    CountChange(s.tasks, id, Finished, Running);
    CountChange(s.tasks, id, Finished, Woken);
    if s.waiters != [] {
      var next, mid := s.waiters[0], Done(s, id).tasks;
      CountChange(mid, next, Woken, Running);
      CountChange(mid, next, Woken, Woken);
    }
  }

  lemma FinishKeepsInv(concurrency: int, s: System, id: nat)
    requires id < |s.tasks| && s.tasks[id].phase == Running && Inv(concurrency, s)
    ensures Inv(concurrency, Leave(s, id))
  {
    hide Done, WakeNext, NoWakeupLost, Bounded;
    FinishCounts(concurrency, s, id);
    DoneKeeps(s, id);
    WakeKeepsMemo(Done(s, id));
    WakeKeepsQueue(Done(s, id));
  }

  function Arrived(s: System, key: Key): System {
    s.(tasks := s.tasks + [Task(key, Woken)], memo := s.memo[key := |s.tasks|])
  }

  lemma ArrivedKeeps(s: System, key: Key)
    requires QueueExact(s) && Memoised(s) && key !in s.memo
    ensures QueueExact(Arrived(s, key)) && Memoised(Arrived(s, key))
  {
  }

  lemma ArrivedCounts(concurrency: int, s: System, key: Key)
    requires NoWakeupLost(concurrency, s) && Bounded(concurrency, s)
    ensures NoWakeupLost(concurrency, Arrived(s, key)) && Bounded(concurrency, Arrived(s, key))
  {
    hide Count;
    CountAdd(s.tasks, Task(key, Woken), Running);
    CountAdd(s.tasks, Task(key, Woken), Woken);
  }

  lemma ArriveKeepsInv(concurrency: int, s: System, key: Key)
    requires Inv(concurrency, s) && key !in s.memo
    ensures Inv(concurrency, Enter(concurrency, Arrived(s, key), |s.tasks|))
  {
    hide QueueExact, Memoised, Bounded, Enter, NoWakeupLost;
    ArrivedKeeps(s, key);
    ArrivedCounts(concurrency, s, key);
    EnterKeepsInv(concurrency, Arrived(s, key), |s.tasks|);
  }

  /** In every interleaving of arrivals, wake-ups and completions: never more than `concurrency` probes run,
      no wake-up is lost, and each key is probed once. */
  lemma {:induction false} ProbesAreSafe(concurrency: int, states: seq<System>, events: seq<Event>, i: nat)
    requires Execution(concurrency, states, events) && i <= |events|
    ensures Inv(concurrency, states[i])
  {
    hide Inv, Enter, Leave;
    if i == 0 {
      StartInv(concurrency);
    } else {
      ProbesAreSafe(concurrency, states, events, i - 1);
      StepKeepsInv(concurrency, states[i - 1], events[i - 1], states[i]);
    }
  }

  lemma StartInv(concurrency: int)
    ensures Inv(concurrency, START)
  {
  }

  lemma {:induction false} StepKeepsInv(concurrency: int, s: System, e: Event, s': System)
    requires Inv(concurrency, s) && Step(concurrency, s, e, s')
    ensures Inv(concurrency, s')
  {
    hide Enter, Leave;
    match e
    case Arrive(key) =>
      if key !in s.memo {
        ArriveKeepsInv(concurrency, s, key);
      }
    case Resume(id) => EnterKeepsInv(concurrency, s, id);
    case Finish(id) => FinishKeepsInv(concurrency, s, id);
  }

  // ---- draining ----

  ghost predicate AllDone(s: System) {
    forall id :: 0 <= id < |s.tasks| ==> s.tasks[id].phase == Finished
  }

  /** With at least one slot, as long as a task is unfinished some task can move without a new arrival. */
  lemma SomeoneMoves(concurrency: int, s: System)
    requires Inv(concurrency, s) && concurrency >= 1 && !AllDone(s)
    ensures exists id :: 0 <= id < |s.tasks| && (s.tasks[id].phase == Woken || s.tasks[id].phase == Running)
  {
    var id :| 0 <= id < |s.tasks| && s.tasks[id].phase != Finished;
    if s.tasks[id].phase == Queued {
      assert id in s.waiters;
      CountSome(s.tasks, Woken);
      CountSome(s.tasks, Running);
    }
  }

  ghost function Work(s: System): nat {
    2 * Count(s.tasks, Queued) + 3 * Count(s.tasks, Woken) + 2 * Count(s.tasks, Running)
  }

  lemma MoveUsesWork(concurrency: int, s: System, e: Event, s': System)
    requires Inv(concurrency, s) && Step(concurrency, s, e, s') && !e.Arrive?
    ensures Work(s') < Work(s)
  {
    match e
    case Resume(id) =>
      forall p
        ensures Count(s'.tasks, p) == Count(s.tasks, p) - (if s.tasks[id].phase == p then 1 else 0) + (if s'.tasks[id].phase == p then 1 else 0)
      {
        CountChange(s.tasks, id, s'.tasks[id].phase, p);
      }
    case Finish(id) =>
      var mid := s.tasks[id := s.tasks[id].(phase := Finished)];
      forall p
        ensures Count(mid, p) == Count(s.tasks, p) - (if s.tasks[id].phase == p then 1 else 0) + (if Finished == p then 1 else 0)
      {
        CountChange(s.tasks, id, Finished, p);
      }
      if s.waiters != [] {
        var next := s.waiters[0];
        forall p
          ensures Count(s'.tasks, p) == Count(mid, p) - (if mid[next].phase == p then 1 else 0) + (if Woken == p then 1 else 0)
        {
          CountChange(mid, next, Woken, p);
        }
      }
  }

  /** A stretch without arrivals takes at most Work(first) <= 3 steps per task, whatever the schedule. */
  lemma {:induction false} StretchesAreShort(concurrency: int, states: seq<System>, events: seq<Event>)
    requires |states| == |events| + 1 && Inv(concurrency, states[0])
    requires forall i :: 0 <= i < |events| ==> !events[i].Arrive? && Step(concurrency, states[i], events[i], states[i + 1])
    ensures Inv(concurrency, states[|events|])
    ensures |events| + Work(states[|events|]) <= Work(states[0]) <= 3 * |states[0].tasks|
    decreases |events|
  {
    hide Inv, Step, Work;
    if events == [] {
      WorkBound(states[0]);
    } else {
      var k := |events| - 1;
      assert Step(concurrency, states[k], events[k], states[k + 1]);
      StretchesAreShort(concurrency, states[..k + 1], events[..k]);
      MoveUsesWork(concurrency, states[k], events[k], states[k + 1]);
      StepKeepsInv(concurrency, states[k], events[k], states[k + 1]);
    }
  }

  lemma WorkBound(s: System)
    ensures Work(s) <= 3 * |s.tasks|
  {
    CountTotal(s.tasks);
  }
}
