// workers/adapters/providerGuard.ts, ProviderGuard.cached: cache-aside with one compute per key in flight.
// Every await is a point where the other callers may run; a transition is what runs between two awaits.
module SingleFlight {
  import opened Wrappers

  type Key = string

  datatype Caller<V> =
    | Reading(key: Key)
    | Read(key: Key, hit: Option<V>)
    | Waiting(key: Key, id: nat)
    | Done(key: Key, result: Result<V, string>)

  datatype Compute<V> =
    | Running(key: Key)
    | Storing(key: Key, value: V)
    | Written(key: Key, value: V)
    | Settled(key: Key, result: Result<V, string>)

  datatype System<V> = System(
    cache: map<Key, V>, inflight: map<Key, nat>, computes: seq<Compute<V>>, callers: seq<Caller<V>>,
    hits: nat, misses: nat)

  datatype Event<V> =
    | Arrive(key: Key)                 // a caller issues cache.get
    | ReadCache(c: nat)                // the cache answers
    | Resume(c: nat)                   // the caller goes on from there
    | Computed(id: nat, v: V)          // compute() resolves
    | ComputeFailed(id: nat, e: string)
    | Write(id: nat)                   // cache.set takes effect
    | WriteFailed(id: nat, e: string)
    | Finish(id: nat)                  // finally: the key leaves inflight
    | Deliver(c: nat)                  // a waiter gets the settled result
    | Expire(key: Key)                 // the cache drops an entry

  function Start<V>(cache: map<Key, V>): System<V> {
    System(cache, map[], [], [], 0, 0)
  }

  predicate Live<V>(p: Compute<V>) {
    !p.Settled?
  }

  function Settle<V>(s: System<V>, id: nat, r: Result<V, string>): System<V>
    requires id < |s.computes|
  {
    s.(computes := s.computes[id := Settled(s.computes[id].key, r)], inflight := s.inflight - {s.computes[id].key})
  }

  /** After the cache answered: hit, join the running compute, or start one. */
  function ResumeCaller<V>(s: System<V>, c: nat): System<V>
    requires c < |s.callers| && s.callers[c].Read?
  {
    var key := s.callers[c].key;
    if s.callers[c].hit.Some? then
      s.(callers := s.callers[c := Done(key, Ok(s.callers[c].hit.value))], hits := s.hits + 1)
    else if key in s.inflight then
      s.(callers := s.callers[c := Waiting(key, s.inflight[key])])
    else
      var id := |s.computes|;
      s.(callers := s.callers[c := Waiting(key, id)], computes := s.computes + [Running(key)],
         inflight := s.inflight[key := id], misses := s.misses + 1)
  }

  ghost predicate Step<V>(s: System<V>, e: Event<V>, s': System<V>) {
    match e
    case Arrive(key) =>
      s' == s.(callers := s.callers + [Reading(key)])
    case ReadCache(c) =>
      c < |s.callers| && s.callers[c].Reading? &&
      var key := s.callers[c].key;
      s' == s.(callers := s.callers[c := Read(key, if key in s.cache then Some(s.cache[key]) else None)])
    case Resume(c) =>
      c < |s.callers| && s.callers[c].Read? && s' == ResumeCaller(s, c)
    case Computed(id, v) =>
      id < |s.computes| && s.computes[id].Running? && s' == s.(computes := s.computes[id := Storing(s.computes[id].key, v)])
    case ComputeFailed(id, error) =>
      id < |s.computes| && s.computes[id].Running? && s' == Settle(s, id, Err(error))
    case Write(id) =>
      id < |s.computes| && s.computes[id].Storing? &&
      var key, v := s.computes[id].key, s.computes[id].value;
      s' == s.(cache := s.cache[key := v], computes := s.computes[id := Written(key, v)])
    case WriteFailed(id, error) =>
      id < |s.computes| && s.computes[id].Storing? && s' == Settle(s, id, Err(error))
    case Finish(id) =>
      id < |s.computes| && s.computes[id].Written? && s' == Settle(s, id, Ok(s.computes[id].value))
    case Deliver(c) =>
      c < |s.callers| && s.callers[c].Waiting? && s.callers[c].id < |s.computes| && s.computes[s.callers[c].id].Settled? &&
      s' == s.(callers := s.callers[c := Done(s.callers[c].key, s.computes[s.callers[c].id].result)])
    case Expire(key) =>
      s' == s.(cache := s.cache - {key})
  }

  ghost predicate Execution<V>(states: seq<System<V>>, events: seq<Event<V>>, initial: map<Key, V>) {
    |states| == |events| + 1 && states[0] == Start(initial) &&
    forall i :: 0 <= i < |events| ==> Step(states[i], events[i], states[i + 1])
  }

  /** inflight maps a key to the one compute for it that is under way, and holds no other key. */
  ghost predicate Exclusive<V>(s: System<V>) {
    && (forall k :: k in s.inflight ==> s.inflight[k] < |s.computes| && s.computes[s.inflight[k]].key == k && Live(s.computes[s.inflight[k]]))
    && (forall id :: 0 <= id < |s.computes| && Live(s.computes[id]) ==>
          s.computes[id].key in s.inflight && s.inflight[s.computes[id].key] == id)
  }

  lemma AtMostOneRunning<V>(s: System<V>, a: nat, b: nat)
    requires Exclusive(s) && a < |s.computes| && b < |s.computes|
    requires Live(s.computes[a]) && Live(s.computes[b]) && s.computes[a].key == s.computes[b].key
    ensures a == b
  {
  }

  /** v was in the cache at the start, or a compute for k stored it. */
  ghost predicate Produced<V>(s: System<V>, initial: map<Key, V>, k: Key, v: V) {
    (k in initial && initial[k] == v) || exists id :: 0 <= id < |s.computes| && Gave(s.computes[id], k, v)
  }

  predicate Gave<V(==)>(p: Compute<V>, k: Key, v: V) {
    p.key == k && ((p.Written? && p.value == v) || (p.Settled? && p.result == Ok(v)))
  }

  ghost predicate FailedWith<V>(s: System<V>, k: Key, e: string) {
    exists id :: 0 <= id < |s.computes| && s.computes[id] == Settled(k, Err(e))
  }

  ghost predicate CallerSound<V>(s: System<V>, initial: map<Key, V>, c: Caller<V>) {
    match c
    case Reading(_) => true
    case Read(k, hit) => hit.Some? ==> Produced(s, initial, k, hit.value)
    case Waiting(k, id) => id < |s.computes| && s.computes[id].key == k
    case Done(k, r) => if r.Ok? then Produced(s, initial, k, r.value) else FailedWith(s, k, r.error)
  }

  /** Whatever the cache holds and whatever a caller got came from a compute for that very key. */
  ghost predicate Provenance<V>(s: System<V>, initial: map<Key, V>) {
    && (forall k :: k in s.cache ==> Produced(s, initial, k, s.cache[k]))
    && (forall c :: 0 <= c < |s.callers| ==> CallerSound(s, initial, s.callers[c]))
  }

  /** A compute only moves forward and keeps its key. */
  ghost predicate Progressed<V>(s: System<V>, s': System<V>) {
    |s.computes| <= |s'.computes| &&
    forall id :: 0 <= id < |s.computes| ==>
      s'.computes[id].key == s.computes[id].key &&
      (s.computes[id].Settled? ==> s'.computes[id] == s.computes[id]) &&
      (s.computes[id].Written? ==> s'.computes[id] == s.computes[id] || s'.computes[id] == Settled(s.computes[id].key, Ok(s.computes[id].value)))
  }

  lemma StepProgresses<V>(s: System<V>, e: Event<V>, s': System<V>)
    requires Step(s, e, s')
    ensures Progressed(s, s')
  {
  }

  lemma ProducedStays<V>(s: System<V>, s': System<V>, initial: map<Key, V>, k: Key, v: V)
    requires Progressed(s, s') && Produced(s, initial, k, v)
    ensures Produced(s', initial, k, v)
  {
    if !(k in initial && initial[k] == v) {
      var id :| 0 <= id < |s.computes| && Gave(s.computes[id], k, v);
      assert Gave(s'.computes[id], k, v);
    }
  }

  lemma CallerStays<V>(s: System<V>, s': System<V>, initial: map<Key, V>, c: Caller<V>)
    requires Progressed(s, s') && CallerSound(s, initial, c)
    ensures CallerSound(s', initial, c)
  {
    match c
    case Reading(_) =>
    case Read(k, hit) =>
      if hit.Some? {
        ProducedStays(s, s', initial, k, hit.value);
      }
    case Waiting(_, _) =>
    case Done(k, r) =>
      if r.Ok? {
        ProducedStays(s, s', initial, k, r.value);
      } else {
        var id :| 0 <= id < |s.computes| && s.computes[id] == Settled(k, Err(r.error));
        assert s'.computes[id] == Settled(k, Err(r.error));
      }
  }

  lemma SettleExclusive<V>(s: System<V>, id: nat, r: Result<V, string>)
    requires Exclusive(s) && id < |s.computes| && Live(s.computes[id])
    ensures Exclusive(Settle(s, id, r))
  {
    assert s.inflight[s.computes[id].key] == id;
  }

  lemma AdvanceExclusive<V>(s: System<V>, id: nat, p: Compute<V>)
    requires Exclusive(s) && id < |s.computes| && Live(s.computes[id]) && Live(p) && p.key == s.computes[id].key
    ensures Exclusive(s.(computes := s.computes[id := p]))
  {
  }

  lemma ResumeExclusive<V>(s: System<V>, c: nat)
    requires Exclusive(s) && c < |s.callers| && s.callers[c].Read?
    ensures Exclusive(ResumeCaller(s, c))
  {
  }

  lemma StepExclusive<V>(s: System<V>, e: Event<V>, s': System<V>)
    requires Exclusive(s) && Step(s, e, s')
    ensures Exclusive(s')
  {
    hide Settle, ResumeCaller;
    match e
    case Resume(c) => ResumeExclusive(s, c);
    case Computed(id, v) => AdvanceExclusive(s, id, Storing(s.computes[id].key, v));
    case Write(id) => AdvanceExclusive(s, id, Written(s.computes[id].key, s.computes[id].value));
    case ComputeFailed(id, error) => SettleExclusive(s, id, Err(error));
    case WriteFailed(id, error) => SettleExclusive(s, id, Err(error));
    case Finish(id) => SettleExclusive(s, id, Ok(s.computes[id].value));
    case _ =>
  }

  lemma CacheSound<V>(s: System<V>, e: Event<V>, s': System<V>, initial: map<Key, V>)
    requires Provenance(s, initial) && Step(s, e, s') && Progressed(s, s')
    ensures forall k :: k in s'.cache ==> Produced(s', initial, k, s'.cache[k])
  {
    forall k | k in s'.cache
      ensures Produced(s', initial, k, s'.cache[k])
    {
      if e.Write? && k == s.computes[e.id].key {
        assert Gave(s'.computes[e.id], k, s'.cache[k]);
      } else {
        ProducedStays(s, s', initial, k, s.cache[k]);
      }
    }
  }

  /** The caller that moves in this step, if any, is sound afterwards. */
  lemma MoverSound<V>(s: System<V>, e: Event<V>, s': System<V>, initial: map<Key, V>, c: nat)
    requires Provenance(s, initial) && Step(s, e, s') && Progressed(s, s') && Exclusive(s)
    requires c < |s'.callers| && (c < |s.callers| ==> s'.callers[c] != s.callers[c])
    ensures CallerSound(s', initial, s'.callers[c])
  {
    match e
    case ReadCache(_) =>
      var k := s.callers[c].key;
      if k in s.cache {
        ProducedStays(s, s', initial, k, s.cache[k]);
      }
    case Resume(_) =>
      assert CallerSound(s, initial, s.callers[c]);
      if s.callers[c].hit.Some? {
        ProducedStays(s, s', initial, s.callers[c].key, s.callers[c].hit.value);
      }
    case Deliver(_) =>
      var id := s.callers[c].id;
      assert CallerSound(s, initial, s.callers[c]);
      if s.computes[id].result.Ok? {
        assert Gave(s'.computes[id], s.callers[c].key, s.computes[id].result.value);
      } else {
        assert s'.computes[id] == Settled(s.callers[c].key, Err(s.computes[id].result.error));
      }
    case _ =>
  }

  lemma StepProvenance<V>(s: System<V>, e: Event<V>, s': System<V>, initial: map<Key, V>)
    requires Exclusive(s) && Provenance(s, initial) && Step(s, e, s')
    ensures Provenance(s', initial)
  {
    StepProgresses(s, e, s');
    CacheSound(s, e, s', initial);
    forall c | 0 <= c < |s'.callers|
      ensures CallerSound(s', initial, s'.callers[c])
    {
      if c < |s.callers| && s'.callers[c] == s.callers[c] {
        CallerStays(s, s', initial, s.callers[c]);
      } else {
        MoverSound(s, e, s', initial, c);
      }
    }
  }

  /** misses counts the computes ever started. */
  ghost predicate MissesCounted<V>(s: System<V>) {
    s.misses == |s.computes|
  }

  /** In every interleaving: at most one compute per key is under way and inflight names exactly those;
      and every value or error a caller got came from a compute for its key, or from the cache it found. */
  lemma {:induction false} CachedIsSound<V>(states: seq<System<V>>, events: seq<Event<V>>, initial: map<Key, V>, i: nat)
    requires Execution(states, events, initial) && i <= |events|
    ensures Exclusive(states[i]) && Provenance(states[i], initial) && MissesCounted(states[i])
  {
    hide Provenance, Exclusive;
    if i == 0 {
      StartSound(initial);
    } else {
      CachedIsSound(states, events, initial, i - 1);
      assert Step(states[i - 1], events[i - 1], states[i]);
      StepExclusive(states[i - 1], events[i - 1], states[i]);
      StepProvenance(states[i - 1], events[i - 1], states[i], initial);
    }
  }

  lemma StartSound<V>(initial: map<Key, V>)
    ensures Exclusive(Start(initial)) && Provenance(Start(initial), initial) && MissesCounted(Start(initial))
  {
  }
}
