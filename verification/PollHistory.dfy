// workers/monitor/tronPoller.ts over time: the polls of one address, the checkpoint each leaves, and the pages each finds
// in the provider cache (workers/adapters/tron.ts:136-137), which keeps every page for good.
module PollHistory {
  import opened Pagination
  import opened Transfers
  import opened Wrappers

  /** A page of an address's history; last: the walk ends with it. */
  datatype Answer = Answer(items: seq<Transfer>, last: bool)

  /** A page as the cache keeps it for good, and when the provider gave it. */
  datatype PageRead = PageRead(answer: Answer, at: int)

  datatype Reply = Reply(answer: Answer, took: nat)

  /** What the provider answers to the request that follows k pages, and how long after the request before; None when it throws. */
  type PageSource = (string, int, nat) -> Option<Reply>

  /**
    * One poll of one address: the pages it had, what it evaluated before it died or finished, and whether it saved its
    * checkpoint. now is the clock of its pass, taken before the pass read anything.
    */
  datatype Attempt = Attempt(since: int, now: int, saved: bool, pages: seq<PageRead>, evaluated: seq<Transfer>)

  const MAX_PAGES: nat := 500
  const MAX_ITEMS: nat := 100_000

  // ---- the walk behind a poll: every page is cached for good under (address, since, cursor) ----

  ghost function ItemsOf(pages: seq<PageRead>): seq<Transfer> {
    if pages == [] then [] else ItemsOf(pages[..|pages| - 1]) + pages[|pages| - 1].answer.items
  }

  /** The walk ends at the last page, or at a ceiling. */
  ghost predicate Stops(pages: seq<PageRead>) {
    pages != [] && (pages[|pages| - 1].answer.last || |pages| >= MAX_PAGES || |Dedup(ItemsOf(pages))| >= MAX_ITEMS)
  }

  ghost predicate Unstopped(pages: seq<PageRead>) {
    forall k :: 0 <= k < |pages| ==> !Stops(pages[..k])
  }

  /** The pages from k on were read one after another, none before now. */
  ghost predicate ReadFrom(pages: seq<PageRead>, k: nat, now: int) {
    && (forall i :: k <= i < |pages| ==> now <= pages[i].at)
    && (forall i, j :: k <= i <= j < |pages| ==> pages[i].at <= pages[j].at)
  }

  /** The clock after a walk that began at `start` with k pages. */
  function EndOf(pages: seq<PageRead>, k: nat, start: int): int {
    if |pages| > k then pages[|pages| - 1].at else start
  }

  lemma OneReadMore(pages: seq<PageRead>, k: nat, start: int, answer: Answer, took: nat)
    requires k <= |pages| && ReadFrom(pages, k, start)
    ensures start <= EndOf(pages, k, start)
    ensures var more := pages + [PageRead(answer, EndOf(pages, k, start) + took)];
      ReadFrom(more, k, start) && EndOf(more, k, start) == EndOf(pages, k, start) + took
  {
  }

  lemma OnePageMore(pages: seq<PageRead>, page: PageRead)
    requires Unstopped(pages) && !Stops(pages)
    ensures Unstopped(pages + [page]) && ItemsOf(pages + [page]) == ItemsOf(pages) + page.answer.items
  {
    var more := pages + [page];
    forall k | 0 <= k < |more|
      ensures !Stops(more[..k])
    {
      assert more[..k] == pages[..k];
      assert k == |pages| ==> pages[..k] == pages;
    }
    assert more[..|pages|] == pages;
  }

  /** The pages of a walk that starts at some time from those already cached. */
  ghost function ReadOn(provider: PageSource, addr: string, since: int, time: int, pages: seq<PageRead>): seq<PageRead>
    decreases if |pages| < MAX_PAGES then MAX_PAGES - |pages| else 0
  {
    if Stops(pages) || |pages| >= MAX_PAGES || provider(addr, since, |pages|).None? then pages
    else
      var reply := provider(addr, since, |pages|).value;
      ReadOn(provider, addr, since, time + reply.took, pages + [PageRead(reply.answer, time + reply.took)])
  }

  /** Cached pages first, the provider for the rest. False: it threw, and the pages read so far stay cached. */
  method ReadWalk(provider: PageSource, addr: string, since: int, start: int, cached: seq<PageRead>)
    returns (ok: bool, pages: seq<PageRead>, items: seq<Transfer>, time: int)
    requires Unstopped(cached)
    ensures pages == ReadOn(provider, addr, since, start, cached)
    ensures cached <= pages && Unstopped(pages) && ReadFrom(pages, |cached|, start) && time == EndOf(pages, |cached|, start)
    ensures ok ==> Stops(pages) && items == Dedup(ItemsOf(pages))
    ensures !ok ==> !Stops(pages) && provider(addr, since, |pages|).None?
  {
    hide Dedup, ItemsOf, Keys, Unstopped, ReadFrom, EndOf, ReadOn;
    pages, items, time := cached, [], start;
    var seen: set<ItemKey> := {};
    var k := 0;
    NothingRead();
    NothingFresh(cached, start);
    while true
      invariant k <= |pages| && cached <= pages && Unstopped(pages)
      invariant ReadFrom(pages, |cached|, start) && time == EndOf(pages, |cached|, start)
      invariant !Stops(pages[..k]) && k < MAX_PAGES
      invariant ReadOn(provider, addr, since, time, pages) == ReadOn(provider, addr, since, start, cached)
      invariant seen == Keys(ItemsOf(pages[..k])) && items == Dedup(ItemsOf(pages[..k]))
      decreases MAX_PAGES - k
    {
      if k == |pages| {
        assert pages[..k] == pages;
        ReadOnOnce(provider, addr, since, time, pages);
        var reply := provider(addr, since, k);
        if reply.None? {
          return false, pages, items, time;
        }
        OneReadMore(pages, |cached|, start, reply.value.answer, reply.value.took);
        time := time + reply.value.took;
        OnePageMore(pages, PageRead(reply.value.answer, time));
        pages := pages + [PageRead(reply.value.answer, time)];
        assert pages[..k] == pages[..|pages| - 1];
      }
      ReadTo(pages, k);
      seen, items := AddItems(pages[k].answer.items, seen, items, ItemsOf(pages[..k]));
      k := k + 1;
      if pages[k - 1].answer.last || k >= MAX_PAGES || |items| >= MAX_ITEMS {
        assert Stops(pages[..k]);
        StopsAtEnd(pages, k);
        ReadOnStops(provider, addr, since, time, pages);
        return true, pages, items, time;
      }
    }
  }

  lemma NothingFresh(pages: seq<PageRead>, start: int)
    ensures ReadFrom(pages, |pages|, start) && EndOf(pages, |pages|, start) == start
  {
  }

  lemma ReadOnOnce(provider: PageSource, addr: string, since: int, time: int, pages: seq<PageRead>)
    requires !Stops(pages) && |pages| < MAX_PAGES
    ensures var reply := provider(addr, since, |pages|);
      ReadOn(provider, addr, since, time, pages) ==
        if reply.None? then pages
        else ReadOn(provider, addr, since, time + reply.value.took, pages + [PageRead(reply.value.answer, time + reply.value.took)])
  {
  }

  lemma ReadOnStops(provider: PageSource, addr: string, since: int, time: int, pages: seq<PageRead>)
    requires Stops(pages)
    ensures ReadOn(provider, addr, since, time, pages) == pages
  {
  }

  /** A walk that has not stopped on cached pages has not used them all. */
  lemma StopsAtEnd(pages: seq<PageRead>, k: nat)
    requires Unstopped(pages) && k <= |pages| && Stops(pages[..k])
    ensures pages[..k] == pages
  {
  }

  lemma ReadTo(pages: seq<PageRead>, k: nat)
    requires k < |pages|
    ensures ItemsOf(pages[..k + 1]) == ItemsOf(pages[..k]) + pages[k].answer.items
  {
    assert pages[..k + 1][..k] == pages[..k];
  }

  lemma NothingRead()
    ensures ItemsOf([]) == [] && Keys([]) == {} && Dedup([]) == [] && !Stops([])
  {
  }

  // ---- the history of one address ----

  /** The saved checkpoint after some polls; 0 before the first. */
  ghost function Checkpoint(polls: seq<Attempt>): int {
    if polls == [] then 0
    else if polls[|polls| - 1].saved then polls[|polls| - 1].now
    else Checkpoint(polls[..|polls| - 1])
  }

  /** The pages cached under a since after some polls. */
  ghost function Cached(polls: seq<Attempt>, since: int): seq<PageRead> {
    if polls == [] then []
    else if polls[|polls| - 1].since == since then polls[|polls| - 1].pages
    else Cached(polls[..|polls| - 1], since)
  }

  /** A poll asks from the checkpoint before it, after a positive interval and after the polls before it; it reads what is
      cached, and the rest from its pass's clock on. */
  ghost predicate Follows(polls: seq<Attempt>, a: Attempt) {
    && a.since == Checkpoint(polls) && a.since < a.now
    && Cached(polls, a.since) <= a.pages && ReadFrom(a.pages, |Cached(polls, a.since)|, a.now)
    && (a.saved ==> a.pages != [])
    && AllDoneBy(polls, a.now)
  }

  ghost predicate DoneBy(a: Attempt, time: int) {
    a.now <= time && forall h :: 0 <= h < |a.pages| ==> a.pages[h].at <= time
  }

  ghost predicate AllDoneBy(polls: seq<Attempt>, time: int) {
    forall i :: 0 <= i < |polls| ==> DoneBy(polls[i], time)
  }

  ghost predicate WellFormed(polls: seq<Attempt>) {
    forall i :: 0 <= i < |polls| ==> Follows(polls[..i], polls[i])
  }

  lemma WellFormedGrows(polls: seq<Attempt>, a: Attempt)
    requires WellFormed(polls) && Follows(polls, a)
    ensures WellFormed(polls + [a])
    ensures Checkpoint(polls + [a]) == if a.saved then a.now else Checkpoint(polls)
    ensures forall since :: Cached(polls + [a], since) == if since == a.since then a.pages else Cached(polls, since)
  {
    hide Follows;
    var more := polls + [a];
    assert more[..|polls|] == polls;
    forall i | 0 <= i < |more|
      ensures Follows(more[..i], more[i])
    {
      assert i < |polls| ==> more[..i] == polls[..i] && Follows(polls[..i], polls[i]);
    }
  }

  lemma CheckpointMoves(polls: seq<Attempt>, j: nat)
    requires WellFormed(polls) && j < |polls|
    ensures Checkpoint(polls[..j]) < polls[j].now
    ensures Checkpoint(polls[..j + 1]) == if polls[j].saved then polls[j].now else Checkpoint(polls[..j])
  {
    hide AllDoneBy, ReadFrom, Cached;
    assert polls[..j + 1][..j] == polls[..j];
    assert Follows(polls[..j], polls[j]);
  }

  /** Checkpoints only move forward: a later poll never asks from before an earlier one's checkpoint. */
  lemma {:induction false} CheckpointsGrow(polls: seq<Attempt>, i: nat, j: nat)
    requires WellFormed(polls) && i <= j <= |polls|
    ensures Checkpoint(polls[..i]) <= Checkpoint(polls[..j])
    decreases j
  {
    hide WellFormed, Checkpoint;
    if i < j {
      CheckpointsGrow(polls, i, j - 1);
      CheckpointMoves(polls, j - 1);
    }
  }

  lemma CheckpointCovers(polls: seq<Attempt>, k: nat, j: nat)
    requires WellFormed(polls) && k < j <= |polls| && polls[k].saved
    ensures polls[k].now <= Checkpoint(polls[..j])
  {
    hide WellFormed, Checkpoint;
    CheckpointMoves(polls, k);
    CheckpointsGrow(polls, k + 1, j);
  }

  /** The saved poll a positive checkpoint came from. */
  lemma {:induction false} CheckpointFrom(polls: seq<Attempt>, i: nat) returns (k: int)
    requires i <= |polls|
    ensures -1 <= k < i
    ensures if k == -1 then Checkpoint(polls[..i]) == 0 else polls[k].saved && polls[k].now == Checkpoint(polls[..i])
    ensures forall m :: k < m < i ==> !polls[m].saved
  {
    if i == 0 {
      k := -1;
    } else if polls[i - 1].saved {
      k := i - 1;
    } else {
      assert polls[..i][..i - 1] == polls[..i - 1];
      k := CheckpointFrom(polls, i - 1);
    }
  }

  /** The poll that put page h into the cache: the first one with that since that came so far. */
  ghost predicate FirstReader(polls: seq<Attempt>, since: int, h: nat, k: nat) {
    && k < |polls| && polls[k].since == since && h < |polls[k].pages| && polls[k].now <= polls[k].pages[h].at
    && forall m :: 0 <= m < k && polls[m].since == since ==> |polls[m].pages| <= h
  }

  lemma {:induction false} PageFrom(polls: seq<Attempt>, since: int, i: nat, h: nat) returns (k: nat)
    requires WellFormed(polls) && i <= |polls| && h < |Cached(polls[..i], since)|
    ensures k < i && FirstReader(polls, since, h, k)
    ensures Cached(polls[..i], since)[h] == polls[k].pages[h]
  {
    assert polls[..i][..i - 1] == polls[..i - 1];
    var a := polls[i - 1];
    assert Follows(polls[..i - 1], a);
    if a.since != since || h < |Cached(polls[..i - 1], since)| {
      k := PageFrom(polls, since, i - 1, h);
    } else {
      k := i - 1;
      NoneReadYet(polls, since, i - 1, h);
    }
  }

  /** What is cached only grows. */
  lemma {:induction false} NoneReadYet(polls: seq<Attempt>, since: int, i: nat, h: nat)
    requires WellFormed(polls) && i <= |polls| && |Cached(polls[..i], since)| <= h
    ensures forall m :: 0 <= m < i && polls[m].since == since ==> |polls[m].pages| <= h
  {
    if i > 0 {
      assert polls[..i][..i - 1] == polls[..i - 1];
      assert Follows(polls[..i - 1], polls[i - 1]);
      NoneReadYet(polls, since, i - 1, h);
    }
  }

  /** Page h of poll i is the one the first poll with its since that came so far read, during that poll or an earlier one that died. */
  lemma ReadByFirst(polls: seq<Attempt>, i: nat, h: nat) returns (k: nat)
    requires WellFormed(polls) && i < |polls| && h < |polls[i].pages|
    ensures k <= i && FirstReader(polls, polls[i].since, h, k) && polls[i].pages[h] == polls[k].pages[h]
    ensures polls[i].since < polls[k].now
  {
    assert polls[..i + 1][..i] == polls[..i];
    assert Cached(polls[..i + 1], polls[i].since) == polls[i].pages;
    k := PageFrom(polls, polls[i].since, i + 1, h);
    assert Follows(polls[..k], polls[k]);
  }

  // ---- what is evaluated ----

  ghost predicate SavedAt(polls: seq<Attempt>, i: nat) {
    i < |polls| && polls[i].saved
  }

  /** When poll i's answer for a transfer was given; home says on which page of a walk that transfer belongs. */
  ghost function ReadAt(polls: seq<Attempt>, home: int -> nat, i: nat): int
    requires i < |polls|
  {
    var h := home(polls[i].since);
    if h < |polls[i].pages| then polls[i].pages[h].at else polls[i].now
  }

  /**
    * The provider shows x from time visible on, on page home(since) of a walk from since: a saved poll evaluated it
    * exactly when its window reached back to x and that page was read once x was visible.
    */
  ghost predicate ShownFrom(polls: seq<Attempt>, x: Transfer, visible: int, home: int -> nat) {
    forall i :: 0 <= i < |polls| && polls[i].saved ==>
      (home(polls[i].since) < |polls[i].pages| &&
       (x in polls[i].evaluated <==> polls[i].since <= x.ts && visible <= ReadAt(polls, home, i)))
  }

  ghost predicate EvaluatedAt(polls: seq<Attempt>, x: Transfer, i: nat) {
    SavedAt(polls, i) && x in polls[i].evaluated
  }

  /** Some poll moved the checkpoint past x on pages read before x was visible. */
  ghost predicate PassedOver(polls: seq<Attempt>, x: Transfer, visible: int, home: int -> nat) {
    exists i: nat :: SavedAt(polls, i) && x.ts < polls[i].now && ReadAt(polls, home, i) < visible
  }

  lemma ReadInWindow(polls: seq<Attempt>, home: int -> nat, i: nat)
    requires WellFormed(polls) && i < |polls|
    ensures polls[i].since < polls[i].now && polls[i].since < ReadAt(polls, home, i) && polls[i].since == Checkpoint(polls[..i])
  {
    assert Follows(polls[..i], polls[i]);
    if home(polls[i].since) < |polls[i].pages| {
      var k := ReadByFirst(polls, i, home(polls[i].since));
    }
  }

  /** A later poll reads nothing that was read before an earlier poll was saved. */
  lemma ReadsGrow(polls: seq<Attempt>, home: int -> nat, j: nat, i: nat)
    requires WellFormed(polls) && SavedAt(polls, j) && j < i < |polls|
    ensures ReadAt(polls, home, j) <= ReadAt(polls, home, i) && ReadAt(polls, home, j) <= polls[i].now
  {
    hide Checkpoint, Cached, ReadFrom;
    assert Follows(polls[..i], polls[i]) && Follows(polls[..j], polls[j]);
    assert polls[..i][j] == polls[j];
    CheckpointCovers(polls, j, i);
    if home(polls[i].since) < |polls[i].pages| {
      var k := ReadByFirst(polls, i, home(polls[i].since));
      assert Follows(polls[..k], polls[k]);
      if k <= j {
        CheckpointsGrow(polls, k, j);
      } else {
        assert polls[..k][j] == polls[j];
      }
    }
  }

  /** Saved polls are ordered by their times, and a window starts no earlier than any checkpoint before it. */
  lemma NotBefore(polls: seq<Attempt>, p: nat, j: nat)
    requires WellFormed(polls) && SavedAt(polls, p) && SavedAt(polls, j)
    ensures p < j ==> polls[p].now <= polls[j].since
    ensures polls[p].now < polls[j].now <==> p < j
  {
    hide Checkpoint;
    assert Follows(polls[..p], polls[p]) && Follows(polls[..j], polls[j]);
    if p < j {
      CheckpointCovers(polls, p, j);
    } else if j < p {
      CheckpointCovers(polls, j, p);
    }
  }

  /** The first saved poll whose answer came at or after a moment. */
  lemma FirstSeeing(polls: seq<Attempt>, home: int -> nat, visible: int, n: nat) returns (i: nat)
    requires SavedAt(polls, n) && ReadAt(polls, home, n) >= visible
    ensures i <= n && SavedAt(polls, i) && ReadAt(polls, home, i) >= visible
    ensures forall k: nat :: k < i && SavedAt(polls, k) ==> ReadAt(polls, home, k) < visible
  {
    if k: nat :| k < n && SavedAt(polls, k) && ReadAt(polls, home, k) >= visible {
      i := FirstSeeing(polls, home, visible, k);
    } else {
      i := n;
    }
  }

  /**
    * With any crashes, once a saved poll has seen the provider show the transfer, it has been evaluated,
    * if and only if no poll moved the checkpoint past it on pages read before it was visible.
    */
  lemma EvaluatedIff(polls: seq<Attempt>, x: Transfer, visible: int, home: int -> nat, n: nat)
    requires WellFormed(polls) && ShownFrom(polls, x, visible, home) && x.ts >= 0
    requires SavedAt(polls, n) && visible <= ReadAt(polls, home, n)
    ensures (exists i: nat :: EvaluatedAt(polls, x, i)) <==> !PassedOver(polls, x, visible, home)
  {
    hide WellFormed, Checkpoint, ReadAt;
    var i := FirstSeeing(polls, home, visible, n);
    var k := CheckpointFrom(polls, i);
    ReadInWindow(polls, home, i);
    if PassedOver(polls, x, visible, home) {
      var p: nat :| SavedAt(polls, p) && x.ts < polls[p].now && ReadAt(polls, home, p) < visible;
      NobodyAfter(polls, x, visible, home, p);
    } else {
      assert k >= 0 ==> SavedAt(polls, k);
      assert EvaluatedAt(polls, x, i);
    }
  }

  /** A poll that moves the checkpoint past x on pages too old to show it is the end of x. */
  lemma NobodyAfter(polls: seq<Attempt>, x: Transfer, visible: int, home: int -> nat, p: nat)
    requires WellFormed(polls) && ShownFrom(polls, x, visible, home)
    requires SavedAt(polls, p) && x.ts < polls[p].now && ReadAt(polls, home, p) < visible
    ensures forall j: nat :: !EvaluatedAt(polls, x, j)
  {
    hide WellFormed, Checkpoint, ReadAt;
    forall j: nat | EvaluatedAt(polls, x, j)
      ensures false
    {
      NotBefore(polls, p, j);
      if j < p {
        ReadsGrow(polls, home, j, p);
      }
    }
  }

  /**
    * What a crash costs: a poll that read the transfer's page before it was visible and died leaves that page cached,
    * so the retry from the same checkpoint moves it past the transfer, and no saved poll ever evaluates it.
    */
  lemma CrashLoses(polls: seq<Attempt>, x: Transfer, visible: int, home: int -> nat, k: nat, i: nat)
    requires WellFormed(polls) && ShownFrom(polls, x, visible, home)
    requires k < i && SavedAt(polls, i) && polls[k].since == polls[i].since && home(polls[k].since) < |polls[k].pages|
    requires ReadAt(polls, home, k) < visible && x.ts < polls[i].now
    ensures PassedOver(polls, x, visible, home) && forall j: nat :: !EvaluatedAt(polls, x, j)
  {
    hide WellFormed, Checkpoint;
    var h := home(polls[i].since);
    var first := ReadByFirst(polls, i, h);
    var same := ReadByFirst(polls, k, h);
    assert first == same;
    NobodyAfter(polls, x, visible, home, i);
  }

  /** Such a run: read at 100, dead; retried at 200 on the same page; saved again at 300. A transfer of 150 is lost. */
  function LosingRun(): seq<Attempt> {
    var early, late := [PageRead(Answer([], true), 100)], [PageRead(Answer([], true), 300)];
    [Attempt(0, 100, false, early, []), Attempt(0, 200, true, early, []), Attempt(200, 300, true, late, [])]
  }

  lemma LosingRunFollows()
    ensures WellFormed(LosingRun())
  {
    var a, b, c := LosingRun()[0], LosingRun()[1], LosingRun()[2];
    assert LosingRun() == [a, b] + [c] && [a, b] == [a] + [b] && [a] == [] + [a];
    hide WellFormed;
    NoPolls();
    WellFormedGrows([], a);
    WellFormedGrows([a], b);
    WellFormedGrows([a, b], c);
  }

  lemma NoPolls()
    ensures WellFormed([])
  {
  }

  lemma LosingRunLoses(x: Transfer)
    requires x.ts == 150
    ensures WellFormed(LosingRun()) && ShownFrom(LosingRun(), x, 150, _ => 0)
    ensures SavedAt(LosingRun(), 2) && ReadAt(LosingRun(), _ => 0, 2) > 150
    ensures forall i: nat :: !EvaluatedAt(LosingRun(), x, i)
  {
    hide WellFormed;
    LosingRunFollows();
    var polls := LosingRun();
    assert polls[0].since == polls[1].since;
    CrashLoses(polls, x, 150, _ => 0, 0, 1);
  }

  /** The poll reads after its pass took the clock: it may see a transfer from the window of the next poll. */
  ghost predicate SeesAhead(polls: seq<Attempt>, x: Transfer, visible: int, home: int -> nat, i: nat) {
    SavedAt(polls, i) && polls[i].now <= x.ts && visible <= ReadAt(polls, home, i)
  }

  /**
    * A second evaluation happens only when the first poll saw the transfer ahead of its own clock, as the next window
    * starts at that clock. A third takes polls at the very instant the transfer was sent, shown and read.
    */
  lemma EvaluatedTwiceOnly(polls: seq<Attempt>, x: Transfer, visible: int, home: int -> nat, i: nat, j: nat)
    requires WellFormed(polls) && ShownFrom(polls, x, visible, home)
    requires i < j && EvaluatedAt(polls, x, i) && EvaluatedAt(polls, x, j)
    ensures SeesAhead(polls, x, visible, home, i) && polls[i].now <= polls[j].since <= x.ts
    ensures x.ts <= visible ==>
      forall k: nat :: i < k < j && SavedAt(polls, k) ==> polls[k].now == x.ts == visible == ReadAt(polls, home, i)
  {
    hide WellFormed, ReadAt;
    NotBefore(polls, i, j);
    forall k: nat | i < k < j && SavedAt(polls, k) && x.ts <= visible
      ensures polls[k].now == x.ts == visible == ReadAt(polls, home, i)
    {
      NotBefore(polls, k, j);
      ReadsGrow(polls, home, i, k);
    }
  }

  /** And then the next saved poll does evaluate it again. */
  lemma AheadRepeats(polls: seq<Attempt>, x: Transfer, visible: int, home: int -> nat, i: nat, j: nat)
    requires WellFormed(polls) && ShownFrom(polls, x, visible, home) && SeesAhead(polls, x, visible, home, i)
    requires i < j && SavedAt(polls, j) && forall k: nat :: i < k < j ==> !SavedAt(polls, k)
    ensures EvaluatedAt(polls, x, i) && EvaluatedAt(polls, x, j)
  {
    hide WellFormed, ReadAt, Checkpoint;
    NotBefore(polls, i, j);
    var k := CheckpointFrom(polls, j);
    ReadInWindow(polls, home, i);
    ReadInWindow(polls, home, j);
    ReadsGrow(polls, home, i, j);
    assert k > i ==> SavedAt(polls, k);
  }

  /** The windows of saved polls tile the time line: each starts where the saved poll before it ended, the first at 0. */
  lemma WindowsTile(polls: seq<Attempt>, j: nat)
    requires WellFormed(polls) && SavedAt(polls, j)
    ensures polls[j].since < polls[j].now
    ensures (polls[j].since == 0 && forall i: nat :: i < j ==> !SavedAt(polls, i)) ||
      exists i: nat :: i < j && SavedAt(polls, i) && polls[i].now == polls[j].since && forall k: nat :: i < k < j ==> !SavedAt(polls, k)
  {
    assert Follows(polls[..j], polls[j]);
    var i := CheckpointFrom(polls, j);
    if i >= 0 {
      assert SavedAt(polls, i) && polls[i].now == polls[j].since && forall k: nat :: i < k < j ==> !SavedAt(polls, k);
    }
  }

  ghost predicate EvaluatedOnce(polls: seq<Attempt>, x: Transfer) {
    exists i: nat :: EvaluatedAt(polls, x, i) && forall j: nat :: EvaluatedAt(polls, x, j) ==> j == i
  }

  /** A poll saw the transfer ahead of its own clock, and another poll was saved later. */
  ghost predicate SeenTwice(polls: seq<Attempt>, x: Transfer, visible: int, home: int -> nat) {
    exists i: nat, j: nat :: i < j && SeesAhead(polls, x, visible, home, i) && SavedAt(polls, j)
  }

  /** The first saved poll after poll i. */
  lemma NextSaved(polls: seq<Attempt>, i: nat, j: nat) returns (k: nat)
    requires i < j && SavedAt(polls, j)
    ensures i < k <= j && SavedAt(polls, k) && forall m: nat :: i < m < k ==> !SavedAt(polls, m)
    decreases j
  {
    if m: nat :| i < m < j && SavedAt(polls, m) {
      k := NextSaved(polls, i, m);
    } else {
      k := j;
    }
  }

  /** Saved polls evaluate a transfer exactly once, just when none passes it over and none but the last sees it ahead. */
  lemma EvaluatedOnceIff(polls: seq<Attempt>, x: Transfer, visible: int, home: int -> nat, n: nat)
    requires WellFormed(polls) && ShownFrom(polls, x, visible, home) && x.ts >= 0
    requires SavedAt(polls, n) && visible <= ReadAt(polls, home, n)
    ensures EvaluatedOnce(polls, x) <==> !PassedOver(polls, x, visible, home) && !SeenTwice(polls, x, visible, home)
  {
    hide WellFormed, ShownFrom, ReadAt;
    EvaluatedIff(polls, x, visible, home, n);
    if SeenTwice(polls, x, visible, home) {
      var i: nat, j: nat :| i < j && SeesAhead(polls, x, visible, home, i) && SavedAt(polls, j);
      var k := NextSaved(polls, i, j);
      AheadRepeats(polls, x, visible, home, i, k);
    } else {
      forall i: nat, j: nat | i < j && EvaluatedAt(polls, x, i) && EvaluatedAt(polls, x, j)
        ensures false
      {
        EvaluatedTwiceOnly(polls, x, visible, home, i, j);
      }
    }
  }

  /** Such a run: the pass of 100 reads at 105 and sees a transfer of 102; the pass of 200 starts its window at 100. */
  function DoubleRun(x: Transfer): seq<Attempt> {
    var first, second := [PageRead(Answer([x], true), 105)], [PageRead(Answer([x], true), 201)];
    [Attempt(0, 100, true, first, [x]), Attempt(100, 200, true, second, [x])]
  }

  lemma DoubleRunFollows(x: Transfer)
    ensures WellFormed(DoubleRun(x))
  {
    var a, b := DoubleRun(x)[0], DoubleRun(x)[1];
    assert DoubleRun(x) == [a] + [b] && [a] == [] + [a];
    hide WellFormed;
    NoPolls();
    WellFormedGrows([], a);
    WellFormedGrows([a], b);
  }

  lemma DoubleRunRepeats(x: Transfer)
    requires x.ts == 102
    ensures WellFormed(DoubleRun(x)) && ShownFrom(DoubleRun(x), x, 103, _ => 0)
    ensures EvaluatedAt(DoubleRun(x), x, 0) && EvaluatedAt(DoubleRun(x), x, 1)
    ensures SeenTwice(DoubleRun(x), x, 103, _ => 0) && !PassedOver(DoubleRun(x), x, 103, _ => 0)
  {
    hide WellFormed;
    DoubleRunFollows(x);
    assert SeesAhead(DoubleRun(x), x, 103, _ => 0, 0) && SavedAt(DoubleRun(x), 1);
  }
}
