// workers/monitor/tronPoller.ts and workers/monitor/checkpoint.ts: watched TRON addresses are polled tier by tier,
// each poll asking for the transfers since the last saved checkpoint.
module TronPoller {
  import opened Pagination
  import opened PollHistory
  import opened Sequences
  import opened Transfers
  import opened Wrappers

  datatype Tier = HOT | WARM | COLD

  datatype WatchItem = WatchItem(caseId: string, addr: string, tier: Tier)

  datatype Due = Due(addr: string, tier: Tier, since: int, caseIds: seq<string>)

  datatype Finding = Finding(rule: string, severity: string, message: string)

  datatype Alert = Alert(caseId: string, addr: string, finding: Finding, amount: Option<string>)

  function Urgency(t: Tier): nat {
    match t case HOT => 2 case WARM => 1 case COLD => 0
  }

  /** The most urgent tier; COLD when there is none. */
  function CombineTier(tiers: seq<Tier>): (r: Tier)
    ensures forall t :: t in tiers ==> Urgency(t) <= Urgency(r)
    ensures tiers != [] ==> r in tiers
  {
    assert tiers != [] ==> tiers[0] in tiers;
    if HOT in tiers then HOT else if WARM in tiers then WARM else COLD
  }

  ghost function TiersOf(watch: seq<WatchItem>, addr: string): seq<Tier> {
    if watch == [] then []
    else
      var rest, w := TiersOf(watch[..|watch| - 1], addr), watch[|watch| - 1];
      if w.addr == addr then rest + [w.tier] else rest
  }

  ghost function CasesOf(watch: seq<WatchItem>, addr: string): seq<string> {
    if watch == [] then []
    else
      var rest, w := CasesOf(watch[..|watch| - 1], addr), watch[|watch| - 1];
      if w.addr == addr then rest + [w.caseId] else rest
  }

  /** The addresses on the list, in the order they first appear. */
  ghost function Watched(watch: seq<WatchItem>): (r: seq<string>)
    ensures forall i, j :: 0 <= i < j < |r| ==> r[i] != r[j]
    ensures forall a :: a in r <==> TiersOf(watch, a) != []
  {
    if watch == [] then []
    else
      var rest, w := Watched(watch[..|watch| - 1]), watch[|watch| - 1];
      if w.addr in rest then rest else rest + [w.addr]
  }

  function CheckedAt(checkpoints: map<string, int>, addr: string): int {
    if addr in checkpoints then checkpoints[addr] else 0
  }

  ghost predicate IsDue(watch: seq<WatchItem>, checkpoints: map<string, int>, interval: Tier -> int, now: int, addr: string) {
    TiersOf(watch, addr) != [] && now - CheckedAt(checkpoints, addr) >= interval(CombineTier(TiersOf(watch, addr)))
  }

  ghost function DueOf(watch: seq<WatchItem>, checkpoints: map<string, int>, addr: string): Due {
    Due(addr, CombineTier(TiersOf(watch, addr)), CheckedAt(checkpoints, addr), Distinct(CasesOf(watch, addr)))
  }

  datatype Watchers = Watchers(tiers: seq<Tier>, caseIds: seq<string>)

  function At(byAddr: map<string, Watchers>, a: string): Watchers {
    if a in byAddr then byAddr[a] else Watchers([], [])
  }

  method GroupByAddress(watch: seq<WatchItem>) returns (byAddr: map<string, Watchers>, order: seq<string>)
    ensures order == Watched(watch) && forall a :: a in byAddr <==> a in order
    ensures forall a :: a in byAddr ==> byAddr[a] == Watchers(TiersOf(watch, a), CasesOf(watch, a))
  {
    hide TiersOf, CasesOf, Watched;
    byAddr, order := map[], [];
    NobodyWatched();
    for i := 0 to |watch|
      invariant order == Watched(watch[..i]) && forall a :: a in byAddr <==> a in order
      invariant forall a :: At(byAddr, a) == Watchers(TiersOf(watch[..i], a), CasesOf(watch[..i], a))
    {
      var w := watch[i];
      ghost var before := byAddr;
      WatchedMore(watch, i);
      if w.addr !in byAddr {
        order := order + [w.addr];
      }
      var cur := At(byAddr, w.addr);
      byAddr := byAddr[w.addr := Watchers(cur.tiers + [w.tier], cur.caseIds + [w.caseId])];
      forall a
        ensures At(byAddr, a) == Watchers(TiersOf(watch[..i + 1], a), CasesOf(watch[..i + 1], a))
      {
        assert At(before, a) == Watchers(TiersOf(watch[..i], a), CasesOf(watch[..i], a));
        OneMoreOf(watch, i, a);
      }
    }
    assert watch[..|watch|] == watch;
    assert forall a :: a in byAddr ==> byAddr[a] == At(byAddr, a);
  }

  lemma NobodyWatched()
    ensures Watched([]) == [] && forall a :: TiersOf([], a) == [] && CasesOf([], a) == []
  {
  }

  lemma WatchedMore(watch: seq<WatchItem>, i: nat)
    requires i < |watch|
    ensures Watched(watch[..i + 1]) == Watched(watch[..i]) + if watch[i].addr in Watched(watch[..i]) then [] else [watch[i].addr]
  {
    assert watch[..i + 1][..i] == watch[..i];
  }

  lemma OneMoreOf(watch: seq<WatchItem>, i: nat, a: string)
    requires i < |watch|
    ensures TiersOf(watch[..i + 1], a) == TiersOf(watch[..i], a) + if watch[i].addr == a then [watch[i].tier] else []
    ensures CasesOf(watch[..i + 1], a) == CasesOf(watch[..i], a) + if watch[i].addr == a then [watch[i].caseId] else []
  {
    assert watch[..i + 1][..i] == watch[..i];
  }

  ghost function DueAmong(watch: seq<WatchItem>, checkpoints: map<string, int>, interval: Tier -> int, now: int, addrs: seq<string>): seq<Due> {
    if addrs == [] then []
    else
      var rest, a := DueAmong(watch, checkpoints, interval, now, addrs[..|addrs| - 1]), addrs[|addrs| - 1];
      if IsDue(watch, checkpoints, interval, now, a) then rest + [DueOf(watch, checkpoints, a)] else rest
  }

  method FindDue(watch: seq<WatchItem>, checkpoints: map<string, int>, interval: Tier -> int, now: int) returns (due: seq<Due>)
    ensures due == DueAmong(watch, checkpoints, interval, now, Watched(watch))
  {
    hide TiersOf, CasesOf, Watched, Distinct, CombineTier;
    var byAddr, order := GroupByAddress(watch);
    due := [];
    for i := 0 to |order|
      invariant due == DueAmong(watch, checkpoints, interval, now, order[..i])
    {
      var addr := order[i];
      assert order[..i + 1][..i] == order[..i];
      assert TiersOf(watch, addr) != [];
      var meta := byAddr[addr];
      var tier := CombineTier(meta.tiers);
      var lastCheckedAt := CheckedAt(checkpoints, addr);
      if now - lastCheckedAt >= interval(tier) {
        due := due + [Due(addr, tier, lastCheckedAt, Distinct(meta.caseIds))];
      }
    }
    assert order[..|order|] == order;
  }

  /** An address is listed exactly when it is watched and due, with its checkpoint and all the cases that watch it. */
  lemma {:induction false} DueListed(watch: seq<WatchItem>, checkpoints: map<string, int>, interval: Tier -> int, now: int, addrs: seq<string>)
    ensures forall d :: d in DueAmong(watch, checkpoints, interval, now, addrs) <==>
      d.addr in addrs && IsDue(watch, checkpoints, interval, now, d.addr) && d == DueOf(watch, checkpoints, d.addr)
  {
    hide IsDue, DueOf;
    if addrs != [] {
      var n := |addrs| - 1;
      DueListed(watch, checkpoints, interval, now, addrs[..n]);
      assert addrs == addrs[..n] + [addrs[n]];
      DueOfAddr(watch, checkpoints, addrs[n]);
    }
  }

  lemma DueOfAddr(watch: seq<WatchItem>, checkpoints: map<string, int>, addr: string)
    ensures DueOf(watch, checkpoints, addr).addr == addr
  {
  }

  /** Some line of the watch list. */
  ghost predicate Watches(watch: seq<WatchItem>, caseId: string, addr: string, tier: Tier) {
    WatchItem(caseId, addr, tier) in watch
  }

  lemma {:induction false} WatchedLines(watch: seq<WatchItem>, addr: string)
    ensures forall t :: t in TiersOf(watch, addr) <==> exists c :: Watches(watch, c, addr, t)
    ensures forall c :: c in CasesOf(watch, addr) <==> exists t :: Watches(watch, c, addr, t)
  {
    if watch != [] {
      var init, w := watch[..|watch| - 1], watch[|watch| - 1];
      WatchedLines(init, addr);
      assert watch == init + [w];
      forall c, t
        ensures Watches(watch, c, addr, t) <==> Watches(init, c, addr, t) || w == WatchItem(c, addr, t)
      {
      }
      forall t
        ensures t in TiersOf(watch, addr) <==> exists c :: Watches(watch, c, addr, t)
      {
        assert t in TiersOf(watch, addr) <==> t in TiersOf(init, addr) || (w.addr == addr && w.tier == t);
        if w.addr == addr && w.tier == t {
          assert Watches(watch, w.caseId, addr, t);
        }
      }
      forall c
        ensures c in CasesOf(watch, addr) <==> exists t :: Watches(watch, c, addr, t)
      {
        assert c in CasesOf(watch, addr) <==> c in CasesOf(init, addr) || (w.addr == addr && w.caseId == c);
        if w.addr == addr && w.caseId == c {
          assert Watches(watch, c, addr, w.tier);
        }
      }
    }
  }

  /** d is what is known of a watched address: HOT if any case watches it so, else WARM if any, else COLD;
      its checkpoint or 0; and each case that watches it once. */
  ghost predicate IsDueFor(watch: seq<WatchItem>, checkpoints: map<string, int>, d: Due) {
    && (exists c :: Watches(watch, c, d.addr, d.tier))
    && (d.tier == HOT <==> exists c :: Watches(watch, c, d.addr, HOT))
    && (d.tier == COLD <==> forall c, t :: Watches(watch, c, d.addr, t) ==> t == COLD)
    && d.since == (if d.addr in checkpoints then checkpoints[d.addr] else 0)
    && (forall c :: c in d.caseIds <==> exists t :: Watches(watch, c, d.addr, t))
    && (forall i, j :: 0 <= i < j < |d.caseIds| ==> d.caseIds[i] != d.caseIds[j])
  }

  /** The due addresses, read off the watch list: watched, and their interval has passed since the checkpoint. */
  lemma DueIff(watch: seq<WatchItem>, checkpoints: map<string, int>, interval: Tier -> int, now: int)
    ensures var due := DueAmong(watch, checkpoints, interval, now, Watched(watch));
      && (forall d :: d in due ==> IsDueFor(watch, checkpoints, d) && now - d.since >= interval(d.tier))
      && (forall d :: IsDueFor(watch, checkpoints, d) && now - d.since >= interval(d.tier) ==> exists d' :: d' in due && d'.addr == d.addr)
  {
    hide Watched, TiersOf, CasesOf, DueAmong, Watches;
    DueListed(watch, checkpoints, interval, now, Watched(watch));
    var due := DueAmong(watch, checkpoints, interval, now, Watched(watch));
    forall d | d in due
      ensures IsDueFor(watch, checkpoints, d)
    {
      WatchedLines(watch, d.addr);
      CombinedTier(TiersOf(watch, d.addr));
    }
    forall d | IsDueFor(watch, checkpoints, d) && now - d.since >= interval(d.tier)
      ensures exists d' :: d' in due && d'.addr == d.addr
    {
      DueFound(watch, checkpoints, interval, now, d);
      assert DueOf(watch, checkpoints, d.addr) in due;
    }
  }

  lemma DueFound(watch: seq<WatchItem>, checkpoints: map<string, int>, interval: Tier -> int, now: int, d: Due)
    requires IsDueFor(watch, checkpoints, d) && now - d.since >= interval(d.tier)
    ensures d.addr in Watched(watch) && IsDue(watch, checkpoints, interval, now, d.addr)
    ensures DueOf(watch, checkpoints, d.addr).addr == d.addr
  {
    hide Watched, TiersOf, CasesOf, Watches, CombineTier;
    WatchedLines(watch, d.addr);
    var tiers := TiersOf(watch, d.addr);
    assert d.tier in tiers;
    HottestTier(tiers, d.tier);
  }

  lemma HottestTier(tiers: seq<Tier>, tier: Tier)
    requires tier in tiers && (tier == HOT <==> HOT in tiers) && (tier == COLD <==> forall t :: t in tiers ==> t == COLD)
    ensures CombineTier(tiers) == tier
  {
  }

  lemma CombinedTier(tiers: seq<Tier>)
    requires tiers != []
    ensures var tier := CombineTier(tiers);
      tier in tiers && (tier == HOT <==> HOT in tiers) && (tier == COLD <==> forall t :: t in tiers ==> t == COLD)
  {
    forall t | t in tiers && CombineTier(tiers) == COLD
      ensures t == COLD
    {
      assert t.HOT? || t.WARM? || t.COLD?;
    }
  }

  ghost predicate OncePerAddress(due: seq<Due>) {
    forall k, l :: 0 <= k < l < |due| ==> due[k].addr != due[l].addr
  }

  lemma {:induction false} DueOnce(watch: seq<WatchItem>, checkpoints: map<string, int>, interval: Tier -> int, now: int, addrs: seq<string>)
    requires forall i, j :: 0 <= i < j < |addrs| ==> addrs[i] != addrs[j]
    ensures OncePerAddress(DueAmong(watch, checkpoints, interval, now, addrs))
  {
    hide IsDue, DueOf;
    if addrs != [] {
      var n := |addrs| - 1;
      DueOnce(watch, checkpoints, interval, now, addrs[..n]);
      DueListed(watch, checkpoints, interval, now, addrs[..n]);
      DueOfAddr(watch, checkpoints, addrs[n]);
      var rest := DueAmong(watch, checkpoints, interval, now, addrs[..n]);
      forall k | 0 <= k < |rest|
        ensures rest[k].addr != addrs[n]
      {
        assert rest[k] in rest;
        var i :| 0 <= i < n && addrs[i] == rest[k].addr;
      }
    }
  }

  // ---- the poller ----

  ghost function AlertsFor(caseIds: seq<string>, findings: seq<Finding>, addr: string, amount: Option<string>): seq<Alert> {
    if caseIds == [] then []
    else AlertsFor(caseIds[..|caseIds| - 1], findings, addr, amount) + AlertsOfCase(caseIds[|caseIds| - 1], findings, addr, amount)
  }

  ghost function AlertsOfCase(caseId: string, findings: seq<Finding>, addr: string, amount: Option<string>): seq<Alert> {
    seq(|findings|, i requires 0 <= i < |findings| => Alert(caseId, addr, findings[i], amount))
  }

  ghost function AlertsOfItems(d: Due, rules: Transfer -> seq<Finding>, items: seq<Transfer>): seq<Alert> {
    if items == [] then []
    else
      var t := items[|items| - 1];
      AlertsOfItems(d, rules, items[..|items| - 1]) + AlertsFor(d.caseIds, rules(t), d.addr, Some(t.amount))
  }

  lemma ItemAlerts(d: Due, rules: Transfer -> seq<Finding>, items: seq<Transfer>, i: nat)
    requires i < |items|
    ensures AlertsOfItems(d, rules, items[..i + 1]) ==
      AlertsOfItems(d, rules, items[..i]) + AlertsFor(d.caseIds, rules(items[i]), d.addr, Some(items[i].amount))
  {
    assert items[..i + 1][..i] == items[..i];
  }

  lemma NoAlerts(d: Due, rules: Transfer -> seq<Finding>, items: seq<Transfer>)
    ensures AlertsOfItems(d, rules, items[..0]) == []
  {
  }

  // ---- how often each alert is raised ----

  /** How often the rules give finding f on transfers of this amount. */
  ghost function FoundOn(rules: Transfer -> seq<Finding>, evaluated: seq<Transfer>, amount: string, f: Finding): nat {
    if evaluated == [] then 0
    else
      var t := evaluated[|evaluated| - 1];
      FoundOn(rules, evaluated[..|evaluated| - 1], amount, f) + if t.amount == amount then multiset(rules(t))[f] else 0
  }

  /** How many alerts like x a poll of d owes: for every case that watches the address, each finding on an evaluated transfer
      with its amount, and each finding on the address with none once the poll is saved. */
  ghost function Owed(d: Due, rules: Transfer -> seq<Finding>, stateRules: string -> seq<Finding>, a: Attempt, x: Alert): nat {
    if x.addr != d.addr || x.caseId !in d.caseIds then 0
    else
      match x.amount
      case Some(amount) => FoundOn(rules, a.evaluated, amount, x.finding)
      case None => if a.saved then multiset(stateRules(d.addr))[x.finding] else 0
  }

  lemma {:induction false} FoundIff(rules: Transfer -> seq<Finding>, evaluated: seq<Transfer>, amount: string, f: Finding)
    ensures FoundOn(rules, evaluated, amount, f) > 0 <==> exists t :: t in evaluated && t.amount == amount && f in rules(t)
  {
    if evaluated != [] {
      var n := |evaluated| - 1;
      FoundIff(rules, evaluated[..n], amount, f);
      assert forall t :: t in evaluated <==> t in evaluated[..n] || t == evaluated[n];
      assert f in multiset(rules(evaluated[n])) <==> f in rules(evaluated[n]);
    }
  }

  /** An alert is owed exactly to a case that watches the address, for a finding on an evaluated transfer with that amount,
      or on the address itself with no amount once the poll is saved. */
  lemma OwedIff(d: Due, rules: Transfer -> seq<Finding>, stateRules: string -> seq<Finding>, a: Attempt, x: Alert)
    ensures Owed(d, rules, stateRules, a, x) > 0 <==>
      x.addr == d.addr && x.caseId in d.caseIds &&
      ((exists t :: t in a.evaluated && x.amount == Some(t.amount) && x.finding in rules(t)) ||
       (a.saved && x.amount.None? && x.finding in stateRules(d.addr)))
  {
    hide FoundOn;
    if x.amount.Some? {
      FoundIff(rules, a.evaluated, x.amount.value, x.finding);
    }
    assert x.finding in multiset(stateRules(d.addr)) <==> x.finding in stateRules(d.addr);
  }

  lemma {:induction false} CaseAlertsCounted(caseId: string, findings: seq<Finding>, addr: string, amount: Option<string>, x: Alert)
    ensures multiset(AlertsOfCase(caseId, findings, addr, amount))[x] ==
      if x == Alert(caseId, addr, x.finding, amount) then multiset(findings)[x.finding] else 0
  {
    if findings != [] {
      var n := |findings| - 1;
      CaseAlertsCounted(caseId, findings[..n], addr, amount, x);
      assert AlertsOfCase(caseId, findings, addr, amount) ==
        AlertsOfCase(caseId, findings[..n], addr, amount) + [Alert(caseId, addr, findings[n], amount)];
      assert findings == findings[..n] + [findings[n]];
    }
  }

  lemma {:induction false} AlertsCounted(caseIds: seq<string>, findings: seq<Finding>, addr: string, amount: Option<string>, x: Alert)
    requires forall i, j :: 0 <= i < j < |caseIds| ==> caseIds[i] != caseIds[j]
    ensures multiset(AlertsFor(caseIds, findings, addr, amount))[x] ==
      if x.caseId in caseIds && x == Alert(x.caseId, addr, x.finding, amount) then multiset(findings)[x.finding] else 0
  {
    hide AlertsOfCase;
    if caseIds != [] {
      var n := |caseIds| - 1;
      AlertsCounted(caseIds[..n], findings, addr, amount, x);
      CaseAlertsCounted(caseIds[n], findings, addr, amount, x);
      assert caseIds == caseIds[..n] + [caseIds[n]];
    }
  }

  lemma {:induction false} ItemAlertsCounted(d: Due, rules: Transfer -> seq<Finding>, items: seq<Transfer>, x: Alert)
    requires forall i, j :: 0 <= i < j < |d.caseIds| ==> d.caseIds[i] != d.caseIds[j]
    ensures multiset(AlertsOfItems(d, rules, items))[x] ==
      if x.addr == d.addr && x.caseId in d.caseIds && x.amount.Some? then FoundOn(rules, items, x.amount.value, x.finding) else 0
  {
    hide AlertsFor;
    if items != [] {
      var n := |items| - 1;
      ItemAlertsCounted(d, rules, items[..n], x);
      AlertsCounted(d.caseIds, rules(items[n]), d.addr, Some(items[n].amount), x);
    }
  }

  /** What one poll raises, counted. */
  lemma PollAlertsCounted(d: Due, rules: Transfer -> seq<Finding>, stateRules: string -> seq<Finding>, a: Attempt, x: Alert)
    requires forall i, j :: 0 <= i < j < |d.caseIds| ==> d.caseIds[i] != d.caseIds[j]
    ensures multiset(AlertsOfItems(d, rules, a.evaluated) +
                     (if a.saved then AlertsFor(d.caseIds, stateRules(d.addr), d.addr, None) else []))[x] ==
      Owed(d, rules, stateRules, a, x)
  {
    hide AlertsFor, AlertsOfItems, FoundOn;
    ItemAlertsCounted(d, rules, a.evaluated, x);
    AlertsCounted(d.caseIds, stateRules(d.addr), d.addr, None, x);
  }

  type Polls = map<string, seq<Attempt>>

  type PageCache = map<(string, int), seq<PageRead>>

  ghost function PollsOf(polls: Polls, addr: string): seq<Attempt> {
    if addr in polls then polls[addr] else []
  }

  function CachedAt(cache: PageCache, addr: string, since: int): seq<PageRead> {
    if (addr, since) in cache then cache[(addr, since)] else []
  }

  ghost predicate ConsistentAt(polls: Polls, checkpoints: map<string, int>, cache: PageCache, clock: int, a: string) {
    && WellFormed(PollsOf(polls, a))
    && CheckedAt(checkpoints, a) == Checkpoint(PollsOf(polls, a))
    && (forall since :: CachedAt(cache, a, since) == Cached(PollsOf(polls, a), since) && Unstopped(CachedAt(cache, a, since)))
    && AllDoneBy(PollsOf(polls, a), clock)
  }

  /** The stored checkpoint and the cached pages of every address are those its polls left. */
  ghost predicate Consistent(polls: Polls, checkpoints: map<string, int>, cache: PageCache, clock: int) {
    forall a :: ConsistentAt(polls, checkpoints, cache, clock, a)
  }

  /** The poll an address gets when its turn comes at `time`, from its cached pages on. */
  ghost function PollNow(provider: PageSource, time: int, now: int, d: Due, before: Polls, saved: bool, evaluated: seq<Transfer>): Attempt {
    Attempt(d.since, now, saved, ReadOn(provider, d.addr, d.since, time, Cached(PollsOf(before, d.addr), d.since)), evaluated)
  }

  /** When its walk is over. */
  ghost function TimeAfter(provider: PageSource, time: int, d: Due, before: Polls): int {
    var cached := Cached(PollsOf(before, d.addr), d.since);
    EndOf(ReadOn(provider, d.addr, d.since, time, cached), |cached|, time)
  }

  /** When the turn of due address k comes. */
  ghost function TurnOf(provider: PageSource, now: int, due: seq<Due>, k: nat, before: Polls): int
    requires k <= |due|
  {
    if k == 0 then now else TimeAfter(provider, TurnOf(provider, now, due, k - 1, before), due[k - 1], before)
  }

  lemma StaysConsistent(polls: Polls, checkpoints: map<string, int>, cache: PageCache, clock: int, addr: string, a: Attempt, after: int)
    requires Consistent(polls, checkpoints, cache, clock) && a.since == CheckedAt(checkpoints, addr) && a.since < a.now <= clock <= after
    requires CachedAt(cache, addr, a.since) <= a.pages && ReadFrom(a.pages, |CachedAt(cache, addr, a.since)|, clock)
    requires AllDoneBy(PollsOf(polls, addr), a.now) && after == EndOf(a.pages, |CachedAt(cache, addr, a.since)|, clock)
    requires Unstopped(a.pages) && (a.saved ==> a.pages != [])
    ensures Consistent(polls[addr := PollsOf(polls, addr) + [a]], if a.saved then checkpoints[addr := a.now] else checkpoints,
                       cache[(addr, a.since) := a.pages], after)
  {
    hide WellFormed, Checkpoint, Cached, Unstopped, ReadFrom, EndOf, AllDoneBy;
    var polls' := polls[addr := PollsOf(polls, addr) + [a]];
    assert ConsistentAt(polls, checkpoints, cache, clock, addr);
    ReadSooner(a.pages, |CachedAt(cache, addr, a.since)|, a.now, clock);
    WellFormedGrows(PollsOf(polls, addr), a);
    DoneLater(PollsOf(polls, addr), a, clock, after);
    var checkpoints', cache' := if a.saved then checkpoints[addr := a.now] else checkpoints, cache[(addr, a.since) := a.pages];
    forall b
      ensures ConsistentAt(polls', checkpoints', cache', after, b)
    {
      assert ConsistentAt(polls, checkpoints, cache, clock, b);
      assert PollsOf(polls', b) == if b == addr then PollsOf(polls, addr) + [a] else PollsOf(polls, b);
      StillDone(PollsOf(polls, b), clock, after);
      forall since
        ensures CachedAt(cache', b, since) == Cached(PollsOf(polls', b), since) && Unstopped(CachedAt(cache', b, since))
      {
        assert CachedAt(cache, b, since) == Cached(PollsOf(polls, b), since) && Unstopped(CachedAt(cache, b, since));
        assert CachedAt(cache', b, since) == if b == addr && since == a.since then a.pages else CachedAt(cache, b, since);
      }
    }
  }

  lemma ReadSooner(pages: seq<PageRead>, k: nat, sooner: int, now: int)
    requires ReadFrom(pages, k, now) && sooner <= now
    ensures ReadFrom(pages, k, sooner)
  {
  }

  lemma StillDone(polls: seq<Attempt>, time: int, later: int)
    requires AllDoneBy(polls, time) && time <= later
    ensures AllDoneBy(polls, later)
  {
  }

  /** A poll whose cached pages were read before and whose fresh ones end the walk. */
  lemma DoneLater(polls: seq<Attempt>, a: Attempt, clock: int, after: int)
    requires AllDoneBy(polls, a.now) && a.now <= clock <= after
    requires Cached(polls, a.since) <= a.pages && ReadFrom(a.pages, |Cached(polls, a.since)|, clock)
    requires after == EndOf(a.pages, |Cached(polls, a.since)|, clock)
    ensures AllDoneBy(polls + [a], after)
  {
    CachedDone(polls, a.since, a.now);
    var cached := Cached(polls, a.since);
    forall h | 0 <= h < |a.pages|
      ensures a.pages[h].at <= after
    {
      assert h < |cached| ==> a.pages[h] == cached[h];
    }
    StillDone(polls, a.now, after);
  }

  lemma {:induction false} CachedDone(polls: seq<Attempt>, since: int, time: int)
    requires AllDoneBy(polls, time)
    ensures forall h :: 0 <= h < |Cached(polls, since)| ==> Cached(polls, since)[h].at <= time
  {
    if polls != [] {
      var k := |polls| - 1;
      assert DoneBy(polls[k], time);
      CachedDone(polls[..k], since, time);
    }
  }

  /** The first done due addresses were each polled once, in turn, from their checkpoint, and saved; nothing else happened. */
  ghost predicate PassDone(provider: PageSource, now: int, due: seq<Due>, done: nat, before: Polls, after: Polls)
    requires done <= |due|
  {
    && (forall k :: 0 <= k < done ==> PolledOnce(provider, TurnOf(provider, now, due, k, before), now, due[k], before, after))
    && (forall a :: (forall k :: 0 <= k < done ==> due[k].addr != a) ==> PollsOf(after, a) == PollsOf(before, a))
  }

  ghost predicate PolledOnce(provider: PageSource, time: int, now: int, d: Due, before: Polls, after: Polls) {
    var poll := PollNow(provider, time, now, d, before, true, []);
    Stops(poll.pages) && PollsOf(after, d.addr) == PollsOf(before, d.addr) + [poll.(evaluated := Dedup(ItemsOf(poll.pages)))]
  }

  /** One unsaved poll of an address was added: the process died before its checkpoint, having evaluated some of it. */
  ghost predicate BrokeOff(provider: PageSource, time: int, now: int, d: Due, before: Polls, after: Polls) {
    exists evaluated: seq<Transfer> ::
      && evaluated <= Dedup(ItemsOf(PollNow(provider, time, now, d, before, false, []).pages))
      && after == before[d.addr := PollsOf(before, d.addr) + [PollNow(provider, time, now, d, before, false, evaluated)]]
  }

  /** What a poll did to its address is seen from any history that agrees on it. */
  lemma PolledAlike(provider: PageSource, time: int, now: int, d: Due, before: Polls, after: Polls, before': Polls, after': Polls)
    requires PolledOnce(provider, time, now, d, before, after)
    requires PollsOf(before', d.addr) == PollsOf(before, d.addr) && PollsOf(after', d.addr) == PollsOf(after, d.addr)
    ensures PolledOnce(provider, time, now, d, before', after')
  {
    hide PollsOf, ReadOn, Stops, Dedup, ItemsOf, Cached;
  }

  lemma PassGoesOn(provider: PageSource, now: int, due: seq<Due>, done: nat, before: Polls, middle: Polls, after: Polls)
    requires done < |due| && OncePerAddress(due)
    requires PassDone(provider, now, due, done, before, middle)
    requires PolledOnce(provider, TurnOf(provider, now, due, done, before), now, due[done], middle, after)
    requires forall b :: b != due[done].addr ==> PollsOf(after, b) == PollsOf(middle, b)
    ensures PassDone(provider, now, due, done + 1, before, after)
  {
    hide PollsOf, PolledOnce, TurnOf;
    assert PollsOf(middle, due[done].addr) == PollsOf(before, due[done].addr);
    forall k | 0 <= k < done + 1
      ensures PolledOnce(provider, TurnOf(provider, now, due, k, before), now, due[k], before, after)
    {
      var turn := TurnOf(provider, now, due, k, before);
      if k < done {
        assert PolledOnce(provider, turn, now, due[k], before, middle);
        assert due[k].addr != due[done].addr;
        PolledAlike(provider, turn, now, due[k], before, middle, before, after);
      } else {
        PolledAlike(provider, turn, now, due[k], middle, after, before, after);
      }
    }
  }

  /** An address whose turn has not come is as it was, and so is what its turn will take. */
  lemma NextTurn(provider: PageSource, now: int, due: seq<Due>, done: nat, before: Polls, middle: Polls)
    requires done < |due| && OncePerAddress(due) && PassDone(provider, now, due, done, before, middle)
    ensures PollsOf(middle, due[done].addr) == PollsOf(before, due[done].addr)
    ensures TurnOf(provider, now, due, done + 1, before) ==
      TimeAfter(provider, TurnOf(provider, now, due, done, before), due[done], middle)
  {
  }

  /** Of the first n due addresses each raised exactly the alerts its last poll owes, and nobody else raised any. */
  ghost predicate Raised(rules: Transfer -> seq<Finding>, stateRules: string -> seq<Finding>, due: seq<Due>, n: nat, polls: Polls, raised: seq<Alert>)
    requires n <= |due|
  {
    && (forall k :: 0 <= k < n ==> RaisedFor(rules, stateRules, due[k], polls, raised))
    && (forall x :: x in raised ==> exists k :: 0 <= k < n && due[k].addr == x.addr)
  }

  ghost predicate RaisedFor(rules: Transfer -> seq<Finding>, stateRules: string -> seq<Finding>, d: Due, polls: Polls, raised: seq<Alert>) {
    PollsOf(polls, d.addr) != [] &&
    forall x: Alert :: x.addr == d.addr ==> multiset(raised)[x] == Owed(d, rules, stateRules, PollsOf(polls, d.addr)[|PollsOf(polls, d.addr)| - 1], x)
  }

  lemma RaisesOn(rules: Transfer -> seq<Finding>, stateRules: string -> seq<Finding>, due: seq<Due>, n: nat, before: Polls, after: Polls,
                 raised: seq<Alert>, more: seq<Alert>, a: Attempt)
    requires n < |due| && OncePerAddress(due) && Raised(rules, stateRules, due, n, before, raised)
    requires after == before[due[n].addr := PollsOf(before, due[n].addr) + [a]]
    requires forall x :: multiset(more)[x] == Owed(due[n], rules, stateRules, a, x)
    ensures Raised(rules, stateRules, due, n + 1, after, raised + more)
  {
    hide RaisedFor, PollsOf;
    MoreIsOwn(due[n], rules, stateRules, a, more);
    forall k | 0 <= k < n + 1
      ensures RaisedFor(rules, stateRules, due[k], after, raised + more)
    {
      if k < n {
        assert due[k].addr != due[n].addr && RaisedFor(rules, stateRules, due[k], before, raised);
        StaysRaised(rules, stateRules, due[k], due[n].addr, before, after, raised, more, a);
      } else {
        OwnRaised(rules, stateRules, due[n], before, after, raised, more, a);
      }
    }
    forall x | x in raised + more
      ensures exists k :: 0 <= k < n + 1 && due[k].addr == x.addr
    {
      if x in raised {
        var k :| 0 <= k < n && due[k].addr == x.addr;
      } else {
        assert due[n].addr == x.addr;
      }
    }
  }

  lemma MoreIsOwn(d: Due, rules: Transfer -> seq<Finding>, stateRules: string -> seq<Finding>, a: Attempt, more: seq<Alert>)
    requires forall x :: multiset(more)[x] == Owed(d, rules, stateRules, a, x)
    ensures forall x :: x in more ==> x.addr == d.addr
  {
    hide Owed;
    forall x | x in more
      ensures x.addr == d.addr
    {
      assert x in multiset(more);
      if x.addr != d.addr {
        OwedElsewhere(d, rules, stateRules, a, x);
      }
    }
  }

  /** Alerts of another address do not matter to d. */
  lemma StaysRaised(rules: Transfer -> seq<Finding>, stateRules: string -> seq<Finding>, d: Due, addr: string, before: Polls, after: Polls,
                    raised: seq<Alert>, more: seq<Alert>, a: Attempt)
    requires d.addr != addr && RaisedFor(rules, stateRules, d, before, raised)
    requires after == before[addr := PollsOf(before, addr) + [a]] && forall x :: x in more ==> x.addr == addr
    ensures RaisedFor(rules, stateRules, d, after, raised + more)
  {
    hide Owed;
    assert PollsOf(after, d.addr) == PollsOf(before, d.addr);
    forall x: Alert | x.addr == d.addr
      ensures multiset(raised + more)[x] == multiset(raised)[x]
    {
      assert x !in more;
    }
  }

  /** The alerts of one poll are all its address has raised so far. */
  lemma OwnRaised(rules: Transfer -> seq<Finding>, stateRules: string -> seq<Finding>, d: Due, before: Polls, after: Polls,
                  raised: seq<Alert>, more: seq<Alert>, a: Attempt)
    requires after == before[d.addr := PollsOf(before, d.addr) + [a]] && forall x :: x in raised ==> x.addr != d.addr
    requires forall x :: multiset(more)[x] == Owed(d, rules, stateRules, a, x)
    ensures RaisedFor(rules, stateRules, d, after, raised + more)
  {
    hide Owed;
    assert PollsOf(after, d.addr) == PollsOf(before, d.addr) + [a];
    forall x: Alert | x.addr == d.addr
      ensures multiset(raised + more)[x] == multiset(more)[x]
    {
      assert x !in raised;
    }
  }

  /** Alerts stay, and those that came since are what these polls owe. */
  ghost predicate RaisedSince(rules: Transfer -> seq<Finding>, stateRules: string -> seq<Finding>, due: seq<Due>, n: nat, polls: Polls,
                              was: seq<Alert>, now: seq<Alert>)
    requires n <= |due|
  {
    was <= now && Raised(rules, stateRules, due, n, polls, now[|was|..])
  }

  lemma PollRaises(rules: Transfer -> seq<Finding>, stateRules: string -> seq<Finding>, due: seq<Due>, n: nat, before: Polls, after: Polls,
                   was: seq<Alert>, mid: seq<Alert>, now: seq<Alert>, a: Attempt)
    requires n < |due| && OncePerAddress(due) && RaisedSince(rules, stateRules, due, n, before, was, mid)
    requires forall i, j :: 0 <= i < j < |due[n].caseIds| ==> due[n].caseIds[i] != due[n].caseIds[j]
    requires after == before[due[n].addr := PollsOf(before, due[n].addr) + [a]]
    requires now == mid + (AlertsOfItems(due[n], rules, a.evaluated) +
      (if a.saved then AlertsFor(due[n].caseIds, stateRules(due[n].addr), due[n].addr, None) else []))
    ensures RaisedSince(rules, stateRules, due, n + 1, after, was, now)
  {
    hide Raised, Owed, AlertsOfItems, AlertsFor;
    var more := now[|mid|..];
    forall x
      ensures multiset(more)[x] == Owed(due[n], rules, stateRules, a, x)
    {
      PollAlertsCounted(due[n], rules, stateRules, a, x);
    }
    RaisesOn(rules, stateRules, due, n, before, after, mid[|was|..], more, a);
    assert now[|was|..] == mid[|was|..] + more;
  }

  lemma OwedElsewhere(d: Due, rules: Transfer -> seq<Finding>, stateRules: string -> seq<Finding>, a: Attempt, x: Alert)
    requires x.addr != d.addr
    ensures Owed(d, rules, stateRules, a, x) == 0
  {
  }

  class TronMonitor {
    var watch: seq<WatchItem>
    var checkpoints: map<string, int>
    var alerts: seq<Alert>
    /** The provider cache, which outlives a worker. */
    var cache: PageCache
    /** When the last poll was over. */
    var clock: int
    ghost var polls: Polls

    ghost predicate Valid()
      reads this`polls, this`checkpoints, this`cache, this`clock
    {
      Consistent(polls, checkpoints, cache, clock)
    }

    constructor (watch: seq<WatchItem>)
      ensures Valid() && this.watch == watch && alerts == [] && polls == map[] && checkpoints == map[] && cache == map[] && clock == 0
    {
      this.watch := watch;
      checkpoints, alerts, cache, clock, polls := map[], [], map[], 0, map[];
    }

    method Raise(caseIds: seq<string>, findings: seq<Finding>, addr: string, amount: Option<string>)
      modifies this`alerts
      ensures alerts == old(alerts) + AlertsFor(caseIds, findings, addr, amount)
    {
      for i := 0 to |caseIds|
        invariant alerts == old(alerts) + AlertsFor(caseIds[..i], findings, addr, amount)
      {
        ghost var before := alerts;
        for j := 0 to |findings|
          invariant alerts == before + AlertsOfCase(caseIds[i], findings, addr, amount)[..j]
        {
          alerts := alerts + [Alert(caseIds[i], addr, findings[j], amount)];
        }
        assert AlertsOfCase(caseIds[i], findings, addr, amount)[..|findings|] == AlertsOfCase(caseIds[i], findings, addr, amount);
        assert caseIds[..i + 1][..i] == caseIds[..i];
      }
      assert caseIds[..|caseIds|] == caseIds;
    }

    /** Records a poll of addr: its pages are cached, and its checkpoint is written when it got that far. */
    method Finish(addr: string, now: int, time: int, saved: bool, pages: seq<PageRead>, ghost a: Attempt)
      requires Valid() && a.since == CheckedAt(checkpoints, addr) && a.since < now <= clock <= time
      requires a.saved == saved && a.now == now && a.pages == pages
      requires CachedAt(cache, addr, a.since) <= pages && ReadFrom(pages, |CachedAt(cache, addr, a.since)|, clock)
      requires AllDoneBy(PollsOf(polls, addr), now) && time == EndOf(pages, |CachedAt(cache, addr, a.since)|, clock)
      requires Unstopped(pages) && (saved ==> pages != [])
      modifies this`polls, this`checkpoints, this`cache, this`clock
      ensures Valid() && clock == time
      ensures polls == old(polls)[addr := PollsOf(old(polls), addr) + [a]]
      ensures checkpoints == if saved then old(checkpoints)[addr := now] else old(checkpoints)
    {
      hide Consistent, CachedAt, AllDoneBy, ReadFrom, EndOf;
      StaysConsistent(polls, checkpoints, cache, clock, addr, a, time);
      polls := polls[addr := PollsOf(polls, addr) + [a]];
      cache := cache[(addr, CheckedAt(checkpoints, addr)) := pages];
      if saved {
        checkpoints := checkpoints[addr := now];
      }
      clock := time;
    }

    /** steps: how many more transfers can be evaluated before the process dies; at 0 it dies before the next step. */
    method EvaluateItems(d: Due, items: seq<Transfer>, rules: Transfer -> seq<Finding>, stateRules: string -> seq<Finding>, steps: nat)
      returns (whole: bool, left: nat, ghost evaluated: seq<Transfer>)
      modifies this`alerts
      ensures whole <==> |items| < steps
      ensures whole ==> left == steps - |items|
      ensures evaluated == if whole then items else items[..steps]
      ensures alerts == old(alerts) + AlertsOfItems(d, rules, evaluated) +
        (if whole then AlertsFor(d.caseIds, stateRules(d.addr), d.addr, None) else [])
    {
      hide AlertsOfItems, AlertsFor;
      left := steps;
      NoAlerts(d, rules, items);
      for i := 0 to |items|
        invariant left == steps - i
        invariant alerts == old(alerts) + AlertsOfItems(d, rules, items[..i])
      {
        if left == 0 {
          return false, 0, items[..i];
        }
        left := left - 1;
        Raise(d.caseIds, rules(items[i]), d.addr, Some(items[i].amount));
        ItemAlerts(d, rules, items, i);
      }
      assert items[..|items|] == items;
      if left == 0 {
        return false, 0, items;
      }
      Raise(d.caseIds, stateRules(d.addr), d.addr, None);
      return true, left, items;
    }

    /** One due address: collect, evaluate, then write the checkpoint. False where the pass breaks off. */
    method PollAddress(d: Due, provider: PageSource, rules: Transfer -> seq<Finding>, stateRules: string -> seq<Finding>,
                       now: int, steps: nat)
      returns (saved: bool, left: nat, ghost evaluated: seq<Transfer>)
      requires Valid() && d.since == CheckedAt(checkpoints, d.addr) && d.since < now <= clock
      requires AllDoneBy(PollsOf(polls, d.addr), now)
      modifies this`polls, this`checkpoints, this`alerts, this`cache, this`clock
      ensures Valid() && clock == TimeAfter(provider, old(clock), d, old(polls)) && old(clock) <= clock
      ensures polls == old(polls)[d.addr := PollsOf(old(polls), d.addr) + [PollNow(provider, old(clock), now, d, old(polls), saved, evaluated)]]
      ensures saved ==> PolledOnce(provider, old(clock), now, d, old(polls), polls)
      ensures !saved ==> BrokeOff(provider, old(clock), now, d, old(polls), polls)
      ensures forall b :: b != d.addr ==> PollsOf(polls, b) == PollsOf(old(polls), b)
      ensures checkpoints == if saved then old(checkpoints)[d.addr := now] else old(checkpoints)
      // alerts of what was evaluated, and of the address once all of it was
      ensures alerts == old(alerts) + (AlertsOfItems(d, rules, evaluated) +
        (if saved then AlertsFor(d.caseIds, stateRules(d.addr), d.addr, None) else []))
    {
      hide AlertsOfItems, AlertsFor, Consistent, ReadOn, Stops, Dedup, ItemsOf, Cached, Unstopped, ReadFrom, EndOf, AllDoneBy;
      var cached := CachedAt(cache, d.addr, d.since);
      CacheFacts(d.addr, d.since);
      var ok, pages, items, time := ReadWalk(provider, d.addr, d.since, clock, cached);
      TimeGoesOn(pages, |cached|, clock);
      StopsSome(pages);
      saved, left, evaluated := false, 0, [];
      if ok {
        saved, left, evaluated := EvaluateItems(d, items, rules, stateRules, steps);
      } else {
        NoAlerts(d, rules, []);
      }
      ghost var poll := Attempt(d.since, now, saved, pages, evaluated);
      assert poll == PollNow(provider, clock, now, d, polls, saved, evaluated);
      Finish(d.addr, now, time, saved, pages, poll);
      OtherPolls(old(polls), d.addr, poll);
    }

    lemma TimeGoesOn(pages: seq<PageRead>, k: nat, start: int)
      requires ReadFrom(pages, k, start)
      ensures start <= EndOf(pages, k, start)
    {
    }

    lemma CacheFacts(addr: string, since: int)
      requires Valid()
      ensures CachedAt(cache, addr, since) == Cached(PollsOf(polls, addr), since) && Unstopped(CachedAt(cache, addr, since))
    {
      assert ConsistentAt(polls, checkpoints, cache, clock, addr);
    }

    /** All polls so far were over when the pass takes its clock. */
    lemma DoneBefore(now: int)
      requires Valid() && clock <= now
      ensures Consistent(polls, checkpoints, cache, now)
      ensures forall a :: AllDoneBy(PollsOf(polls, a), now)
    {
      hide WellFormed, Checkpoint, Cached, Unstopped, AllDoneBy;
      forall a
        ensures ConsistentAt(polls, checkpoints, cache, now, a) && AllDoneBy(PollsOf(polls, a), now)
      {
        assert ConsistentAt(polls, checkpoints, cache, clock, a);
        StillDone(PollsOf(polls, a), clock, now);
      }
    }

    /**
      * One pass at `now`. provider answers what is not cached; the pass ends where it throws, or where the process dies.
      * The first done of the due addresses got their checkpoint.
      */
    method Poll(provider: PageSource, rules: Transfer -> seq<Finding>, stateRules: string -> seq<Finding>,
                interval: Tier -> int, now: int, steps: nat)
      returns (due: seq<Due>, done: nat, ghost middle: Polls)
      requires Valid() && clock <= now && forall t: Tier :: interval(t) > 0
      modifies this`polls, this`checkpoints, this`alerts, this`cache, this`clock
      ensures Valid() && now <= clock
      ensures due == DueAmong(watch, old(checkpoints), interval, now, Watched(watch)) && done <= |due|
      ensures PassDone(provider, now, due, done, old(polls), middle)
      // where it broke off, an unsaved poll of one more address was added
      ensures if done == |due| then polls == middle
              else BrokeOff(provider, TurnOf(provider, now, due, done, old(polls)), now, due[done], middle, polls)
      ensures SavedSome(due, done, now, old(checkpoints), checkpoints)
      // old alerts stay, and each address that had its turn raised what its poll owes
      ensures RaisedSince(rules, stateRules, due, if done == |due| then done else done + 1, polls, old(alerts), alerts)
    {
      hide RaisedSince;
      hide Watched, Consistent, PollsOf, PassDone, PolledOnce, BrokeOff, DueAmong, SavedSome, AlertsOfItems, AlertsFor, AllDoneBy, TimeAfter, TurnOf;
      due := FindDue(watch, checkpoints, interval, now);
      DueFacts(watch, checkpoints, interval, now, due);
      DoneBefore(now);
      clock := now;
      done, middle := 0, polls;
      var left := steps;
      PassStarts(provider, now, due, polls, checkpoints);
      NothingRaised(rules, stateRules, due, polls, alerts);
      while done < |due|
        invariant Valid() && now <= clock && done <= |due| && polls == middle
        invariant clock == TurnOf(provider, now, due, done, old(polls))
        invariant PassDone(provider, now, due, done, old(polls), middle)
        invariant SavedSome(due, done, now, old(checkpoints), checkpoints)
        invariant RaisedSince(rules, stateRules, due, done, polls, old(alerts), alerts)
      {
        var d := due[done];
        var saved;
        ghost var checkpoints0 := checkpoints;
        StillDue(due, done, now, old(checkpoints), checkpoints);
        NextTurn(provider, now, due, done, old(polls), middle);
        ghost var evaluated;
        ghost var time, alerts0 := clock, alerts;
        saved, left, evaluated := PollAddress(d, provider, rules, stateRules, now, left);
        PollRaises(rules, stateRules, due, done, middle, polls, old(alerts), alerts0, alerts, PollNow(provider, time, now, d, middle, saved, evaluated));
        if !saved {
          return;
        }
        PassGoesOn(provider, now, due, done, old(polls), middle, polls);
        OneMoreSaved(due, done, now, old(checkpoints), checkpoints0);
        middle := polls;
        done := done + 1;
      }
    }
  }

  /** The first done due addresses have this pass's time as checkpoint, all others what they had. */
  ghost predicate SavedSome(due: seq<Due>, done: nat, now: int, before: map<string, int>, after: map<string, int>)
    requires done <= |due|
  {
    forall a :: CheckedAt(after, a) == if exists k :: 0 <= k < done && due[k].addr == a then now else CheckedAt(before, a)
  }

  lemma StillDue(due: seq<Due>, done: nat, now: int, before: map<string, int>, after: map<string, int>)
    requires done < |due| && OncePerAddress(due) && SavedSome(due, done, now, before, after)
    ensures CheckedAt(after, due[done].addr) == CheckedAt(before, due[done].addr)
  {
  }

  lemma OneMoreSaved(due: seq<Due>, done: nat, now: int, before: map<string, int>, after: map<string, int>)
    requires done < |due| && SavedSome(due, done, now, before, after)
    ensures SavedSome(due, done + 1, now, before, after[due[done].addr := now])
  {
    var saved := after[due[done].addr := now];
    forall a
      ensures CheckedAt(saved, a) == if exists k :: 0 <= k < done + 1 && due[k].addr == a then now else CheckedAt(before, a)
    {
      assert a == due[done].addr ==> due[done].addr == a;
      assert CheckedAt(after, a) == if exists k :: 0 <= k < done && due[k].addr == a then now else CheckedAt(before, a);
    }
  }

  lemma StopsSome(pages: seq<PageRead>)
    ensures Stops(pages) ==> pages != []
  {
  }

  lemma OtherPolls(polls: Polls, addr: string, a: Attempt)
    ensures var after := polls[addr := PollsOf(polls, addr) + [a]];
      && PollsOf(after, addr) == PollsOf(polls, addr) + [a]
      && forall b :: b != addr ==> PollsOf(after, b) == PollsOf(polls, b)
  {
  }

  lemma PassStarts(provider: PageSource, now: int, due: seq<Due>, polls: Polls, checkpoints: map<string, int>)
    ensures PassDone(provider, now, due, 0, polls, polls) && SavedSome(due, 0, now, checkpoints, checkpoints)
    ensures TurnOf(provider, now, due, 0, polls) == now
  {
  }

  lemma DueFacts(watch: seq<WatchItem>, checkpoints: map<string, int>, interval: Tier -> int, now: int, due: seq<Due>)
    requires due == DueAmong(watch, checkpoints, interval, now, Watched(watch)) && forall t: Tier :: interval(t) > 0
    ensures forall k :: 0 <= k < |due| ==> due[k].since == CheckedAt(checkpoints, due[k].addr) && due[k].since < now
    ensures forall k :: 0 <= k < |due| ==> forall i, j :: 0 <= i < j < |due[k].caseIds| ==> due[k].caseIds[i] != due[k].caseIds[j]
    ensures OncePerAddress(due)
  {
    hide Watched, TiersOf, CasesOf;
    DueListed(watch, checkpoints, interval, now, Watched(watch));
    DueOnce(watch, checkpoints, interval, now, Watched(watch));
    forall k | 0 <= k < |due|
      ensures due[k].since == CheckedAt(checkpoints, due[k].addr) && due[k].since < now
      ensures forall i, j :: 0 <= i < j < |due[k].caseIds| ==> due[k].caseIds[i] != due[k].caseIds[j]
    {
      assert due[k] in due;
    }
  }

  lemma NothingRaised(rules: Transfer -> seq<Finding>, stateRules: string -> seq<Finding>, due: seq<Due>, polls: Polls, alerts: seq<Alert>)
    ensures RaisedSince(rules, stateRules, due, 0, polls, alerts, alerts)
  {
  }
}
