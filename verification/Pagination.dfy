// workers/adapters/paginate.ts, collectTransfers: a deduplicating walk over a pager that is not trusted.
module Pagination {
  import opened Transfers
  import opened Wrappers

  /** `txHash|idx|from|to` */
  type ItemKey = (string, nat, string, string)

  function KeyOf(t: Transfer): ItemKey {
    (t.txHash, t.idx, t.from, t.to)
  }

  /** next is None when the provider reports the end. */
  datatype Page<!C> = Page(items: seq<Transfer>, next: Option<C>)

  datatype Collected = Collected(items: seq<Transfer>, pages: nat, truncated: bool)

  ghost function Keys(s: seq<Transfer>): set<ItemKey> {
    set t | t in s :: KeyOf(t)
  }

  /** The first transfer of every key, in order. */
  ghost function Dedup(s: seq<Transfer>): seq<Transfer> {
    if s == [] then []
    else
      var k := |s| - 1;
      if KeyOf(s[k]) in Keys(s[..k]) then Dedup(s[..k]) else Dedup(s[..k]) + [s[k]]
  }

  ghost function Flatten<C>(pages: seq<Page<C>>): seq<Transfer> {
    if pages == [] then [] else Flatten(pages[..|pages| - 1]) + pages[|pages| - 1].items
  }

  /** pages are what the pager answered: the first to the given cursor, each other to the cursor before it. */
  ghost predicate ReadInOrder<C>(fetch: (nat, Option<C>) -> Option<Page<C>>, start: Option<C>, pages: seq<Page<C>>) {
    forall i :: 0 <= i < |pages| ==> AnsweredAt(fetch, start, pages, i)
  }

  ghost predicate AnsweredAt<C>(fetch: (nat, Option<C>) -> Option<Page<C>>, start: Option<C>, pages: seq<Page<C>>, i: nat)
    requires i < |pages|
  {
    fetch(i, if i == 0 then start else pages[i - 1].next) == Some(pages[i]) && (i > 0 ==> pages[i - 1].next.Some?)
  }

  /** The cursors followed so far: those of all pages but the last. */
  ghost predicate Followed<C>(pages: seq<Page<C>>, c: C) {
    exists i :: 0 <= i < |pages| - 1 && pages[i].next == Some(c)
  }

  lemma KeysAdd(s: seq<Transfer>, t: Transfer)
    ensures Keys(s + [t]) == Keys(s) + {KeyOf(t)}
  {
    assert forall x :: x in s + [t] <==> x in s || x == t;
    assert t in s + [t];
  }

  lemma DedupAdd(s: seq<Transfer>, t: Transfer)
    ensures Dedup(s + [t]) == if KeyOf(t) in Keys(s) then Dedup(s) else Dedup(s) + [t]
  {
    assert (s + [t])[..|s|] == s;
  }

  lemma FlattenAdd<C>(pages: seq<Page<C>>, page: Page<C>)
    ensures Flatten(pages + [page]) == Flatten(pages) + page.items
  {
    assert (pages + [page])[..|pages|] == pages;
  }

  /** Adds the unseen items of one page. */
  method AddItems(items: seq<Transfer>, seen0: set<ItemKey>, out0: seq<Transfer>, ghost before: seq<Transfer>)
    returns (seen: set<ItemKey>, out: seq<Transfer>)
    requires seen0 == Keys(before) && out0 == Dedup(before)
    ensures seen == Keys(before + items) && out == Dedup(before + items)
  {
    hide Keys, Dedup, KeyOf;
    seen, out := seen0, out0;
    assert before + items[..0] == before;
    for i := 0 to |items|
      invariant seen == Keys(before + items[..i]) && out == Dedup(before + items[..i])
    {
      var t := items[i];
      ghost var s := before + items[..i];
      KeysAdd(s, t);
      DedupAdd(s, t);
      assert before + items[..i + 1] == s + [t];
      if KeyOf(t) !in seen {
        seen := seen + {KeyOf(t)};
        out := out + [t];
      }
    }
    assert items[..|items|] == items;
  }

  /** While pages were read there was never a reason to stop: no end, and neither ceiling reached. */
  ghost predicate KeptGoing<C>(start: Option<C>, pages: seq<Page<C>>, maxPages: int, maxItems: int) {
    forall i :: 0 < i < |pages| ==> GoesOn(start, pages[..i], maxPages, maxItems)
  }

  ghost predicate GoesOn<C>(start: Option<C>, pages: seq<Page<C>>, maxPages: int, maxItems: int) {
    !Ended(start, pages) && |pages| < maxPages && |Dedup(Flatten(pages))| < maxItems
  }

  ghost function CursorAfter<C>(start: Option<C>, pages: seq<Page<C>>): Option<C> {
    if pages == [] then start else pages[|pages| - 1].next
  }

  /** The loop's variables against the pages read so far. */
  ghost predicate WalkInv<C(!new)>(fetch: (nat, Option<C>) -> Option<Page<C>>, start: Option<C>, pages: seq<Page<C>>,
                             maxPages: int, maxItems: int, cursors: set<C>) {
    && ReadInOrder(fetch, start, pages)
    && KeptGoing(start, pages, maxPages, maxItems)
    && (pages != [] ==> GoesOn(start, pages, maxPages, maxItems))
    && forall c :: c in cursors <==> exists i :: 0 <= i < |pages| && pages[i].next == Some(c)
  }

  lemma ReadsOn<C(!new)>(fetch: (nat, Option<C>) -> Option<Page<C>>, start: Option<C>, pages: seq<Page<C>>,
                   maxPages: int, maxItems: int, cursors: set<C>, page: Page<C>)
    requires WalkInv(fetch, start, pages, maxPages, maxItems, cursors)
    requires fetch(|pages|, CursorAfter(start, pages)) == Some(page)
    ensures ReadInOrder(fetch, start, pages + [page]) && KeptGoing(start, pages + [page], maxPages, maxItems)
    ensures Ended(start, pages + [page]) <==>
      page.next.None? || page.next.value in cursors || page.next == CursorAfter(start, pages)
    ensures page.next.Some? && GoesOn(start, pages + [page], maxPages, maxItems) ==>
      WalkInv(fetch, start, pages + [page], maxPages, maxItems, cursors + {page.next.value})
  {
    hide Dedup, Flatten;
    var more := pages + [page];
    assert more[..|pages|] == pages;
    forall i | 0 < i < |more|
      ensures GoesOn(start, more[..i], maxPages, maxItems)
    {
      if i < |pages| {
        assert more[..i] == pages[..i];
      }
    }
    ReadOneMore(fetch, start, pages, page);
    EndedIff(start, pages, page, CursorAfter(start, pages), cursors);
    if page.next.Some? {
      CursorsGrow(pages, page, cursors);
    }
  }

  lemma CursorsGrow<C(!new)>(pages: seq<Page<C>>, page: Page<C>, cursors: set<C>)
    requires page.next.Some? && forall c :: c in cursors <==> exists i :: 0 <= i < |pages| && pages[i].next == Some(c)
    ensures forall c :: c in cursors + {page.next.value} <==> exists i :: 0 <= i < |pages + [page]| && (pages + [page])[i].next == Some(c)
  {
    var more := pages + [page];
    forall c
      ensures c in cursors + {page.next.value} <==> exists i :: 0 <= i < |more| && more[i].next == Some(c)
    {
      assert more[|pages|] == page;
      if c in cursors {
        var i :| 0 <= i < |pages| && pages[i].next == Some(c);
        assert more[i].next == Some(c);
      }
      if k :| 0 <= k < |more| && more[k].next == Some(c) {
        assert k < |pages| ==> pages[k].next == Some(c);
      }
    }
  }

  /** What a walk reports about the pages it read. */
  ghost predicate WalkedBy<C(!new)>(fetch: (nat, Option<C>) -> Option<Page<C>>, start: Option<C>, maxPages: int, maxItems: int,
                                    r: Option<Collected>, pagesRead: seq<Page<C>>) {
    && ReadInOrder(fetch, start, pagesRead)
    && |pagesRead| <= (if maxPages < 1 then 1 else maxPages)
    // no earlier page gave it a reason to stop
    && KeptGoing(start, pagesRead, maxPages, maxItems)
    && (r.None? ==> fetch(|pagesRead|, CursorAfter(start, pagesRead)).None?)
    && (r.Some? ==>
      && pagesRead != [] && r.value.pages == |pagesRead| && r.value.items == Dedup(Flatten(pagesRead))
      // it stopped at the end, at a cursor it had followed (or was first given), or else at a ceiling
      && (r.value.truncated <==> !Ended(start, pagesRead))
      && (r.value.truncated ==> r.value.pages >= maxPages || |r.value.items| >= maxItems))
  }

  /** None: the adapter threw. */
  method CollectTransfers<C(==,!new)>(fetch: (nat, Option<C>) -> Option<Page<C>>, start: Option<C>, maxPages: int, maxItems: int)
    returns (r: Option<Collected>)
    ensures r.Some? ==> 1 <= r.value.pages <= (if maxPages < 1 then 1 else maxPages)
    ensures exists pagesRead :: WalkedBy(fetch, start, maxPages, maxItems, r, pagesRead)
  {
    hide Dedup, Flatten, Keys, ReadInOrder, KeptGoing, Ended;
    ghost var pagesRead: seq<Page<C>> := [];
    var seen: set<ItemKey> := {};
    var items := [];
    var cursors: set<C> := {};
    var cursor := start;
    var pages := 0;
    NothingRead(fetch, start, maxPages, maxItems);
    while true
      invariant pages == |pagesRead| && (pages > 0 ==> pages < maxPages)
      invariant WalkInv(fetch, start, pagesRead, maxPages, maxItems, cursors)
      invariant seen == Keys(Flatten(pagesRead)) && items == Dedup(Flatten(pagesRead))
      invariant cursor == CursorAfter(start, pagesRead)
      decreases (if maxPages < 1 then 1 else maxPages) - pages
    {
      var answer := fetch(pages, cursor);
      if answer.None? {
        r := None;
        assert WalkedBy(fetch, start, maxPages, maxItems, r, pagesRead);
        return;
      }
      var page := answer.value;
      ReadsOn(fetch, start, pagesRead, maxPages, maxItems, cursors, page);
      FlattenAdd(pagesRead, page);
      seen, items := AddItems(page.items, seen, items, Flatten(pagesRead));
      pagesRead := pagesRead + [page];
      pages := pages + 1;
      if page.next.None? {
        r := Some(Collected(items, pages, false));
        assert WalkedBy(fetch, start, maxPages, maxItems, r, pagesRead);
        return;
      }
      if page.next.value in cursors || page.next == cursor {
        r := Some(Collected(items, pages, false));
        assert WalkedBy(fetch, start, maxPages, maxItems, r, pagesRead);
        return;
      }
      cursors := cursors + {page.next.value};
      cursor := page.next;
      if pages >= maxPages || |items| >= maxItems {
        r := Some(Collected(items, pages, true));
        assert WalkedBy(fetch, start, maxPages, maxItems, r, pagesRead);
        return;
      }
    }
  }

  lemma NothingRead<C(!new)>(fetch: (nat, Option<C>) -> Option<Page<C>>, start: Option<C>, maxPages: int, maxItems: int)
    ensures WalkInv(fetch, start, [], maxPages, maxItems, {})
    ensures Keys(Flatten<C>([])) == {} && Dedup(Flatten<C>([])) == []
  {
  }

  /** The last page read has no cursor, or one that was followed before, or the one it was asked with. */
  ghost predicate Ended<C>(start: Option<C>, pages: seq<Page<C>>) {
    pages != [] &&
    var next := pages[|pages| - 1].next;
    next.None? || Followed(pages, next.value) || (|pages| == 1 && next == start)
  }

  lemma EndedIff<C(!new)>(start: Option<C>, before: seq<Page<C>>, page: Page<C>, cursor: Option<C>, cursors: set<C>)
    requires cursor == if before == [] then start else before[|before| - 1].next
    requires forall c :: c in cursors <==> exists i :: 0 <= i < |before| && before[i].next == Some(c)
    ensures Ended(start, before + [page]) <==> page.next.None? || page.next.value in cursors || page.next == cursor
  {
    var pages := before + [page];
    if page.next.Some? {
      assert Followed(pages, page.next.value) <==> page.next.value in cursors by {
        assert forall i :: 0 <= i < |before| ==> pages[i] == before[i];
      }
      if before != [] && page.next == cursor {
        assert before[|before| - 1].next == Some(page.next.value);
      }
    }
  }

  lemma ReadOneMore<C(!new)>(fetch: (nat, Option<C>) -> Option<Page<C>>, start: Option<C>, pages: seq<Page<C>>, page: Page<C>)
    requires ReadInOrder(fetch, start, pages)
    requires fetch(|pages|, CursorAfter(start, pages)) == Some(page)
    requires pages != [] ==> pages[|pages| - 1].next.Some?
    ensures ReadInOrder(fetch, start, pages + [page])
  {
    var more := pages + [page];
    forall i | 0 <= i < |more|
      ensures AnsweredAt(fetch, start, more, i)
    {
      assert i < |pages| ==> AnsweredAt(fetch, start, pages, i);
    }
  }

  // ---- what deduplication keeps ----

  lemma {:induction false} DedupKeys(s: seq<Transfer>)
    ensures Keys(Dedup(s)) == Keys(s)
    ensures forall i, j :: 0 <= i < j < |Dedup(s)| ==> KeyOf(Dedup(s)[i]) != KeyOf(Dedup(s)[j])
  {
    if s != [] {
      var k := |s| - 1;
      DedupKeys(s[..k]);
      assert s == s[..k] + [s[k]];
      KeysAdd(s[..k], s[k]);
      var d := Dedup(s[..k]);
      KeysAdd(d, s[k]);
      forall i | 0 <= i < |d|
        ensures KeyOf(d[i]) in Keys(s[..k])
      {
        assert d[i] in d;
      }
    }
  }

  /** One transfer to the walk: the same transaction, number and parties. */
  predicate SameItem(a: Transfer, b: Transfer) {
    a.txHash == b.txHash && a.idx == b.idx && a.from == b.from && a.to == b.to
  }

  /** No earlier item is the same transfer. */
  ghost predicate FirstSeen(s: seq<Transfer>, i: nat) {
    i < |s| && forall j :: 0 <= j < i ==> !SameItem(s[j], s[i])
  }

  /** Deduplication keeps the first item of each transfer, those and no others, in the order they came. */
  lemma {:induction false} DedupIsFirst(s: seq<Transfer>) returns (at: seq<nat>)
    ensures |at| == |Dedup(s)| && forall i, j :: 0 <= i < j < |at| ==> at[i] < at[j]
    ensures forall i: nat :: i in at <==> FirstSeen(s, i)
    ensures forall k :: 0 <= k < |at| ==> at[k] < |s| && Dedup(s)[k] == s[at[k]]
  {
    hide KeyOf;
    at := [];
    if s != [] {
      var n: nat := |s| - 1;
      at := DedupIsFirst(s[..n]);
      forall i: nat | i < n
        ensures FirstSeen(s, i) <==> FirstSeen(s[..n], i)
      {
      }
      SeenIff(s, n);
      if KeyOf(s[n]) !in Keys(s[..n]) {
        assert forall i :: i in at + [n] <==> i in at || i == n;
        at := at + [n];
      }
    }
  }

  lemma SeenIff(s: seq<Transfer>, n: nat)
    requires n < |s|
    ensures KeyOf(s[n]) in Keys(s[..n]) <==> !FirstSeen(s, n)
  {
    if j :| 0 <= j < n && SameItem(s[j], s[n]) {
      assert s[..n][j] in s[..n];
    }
    if KeyOf(s[n]) in Keys(s[..n]) {
      var t :| t in s[..n] && KeyOf(t) == KeyOf(s[n]);
      var j :| 0 <= j < n && s[..n][j] == t;
      assert SameItem(s[j], s[n]);
    }
  }

  lemma {:induction false} DedupShrinks(s: seq<Transfer>)
    ensures |Dedup(s)| <= |s| && (|Dedup(s)| == |s| ==> Dedup(s) == s)
  {
    if s != [] {
      DedupShrinks(s[..|s| - 1]);
    }
  }

  lemma {:induction false} DedupOfDistinct(s: seq<Transfer>)
    requires forall i, j :: 0 <= i < j < |s| ==> KeyOf(s[i]) != KeyOf(s[j])
    ensures Dedup(s) == s
  {
    if s != [] {
      DedupOfDistinct(s[..|s| - 1]);
    }
  }

  // ---- when a walk that says it was not cut off did reach the end ----

  /** Some page hands out a cursor an earlier page handed out, or the first page the one it was asked with. */
  ghost predicate Repeats<C>(start: Option<C>, pages: seq<Page<C>>) {
    (exists i, j :: 0 <= i < j < |pages| && RepeatsAt(pages, i, j)) || (pages != [] && start.Some? && pages[0].next == start)
  }

  ghost predicate RepeatsAt<C>(pages: seq<Page<C>>, i: nat, j: nat) {
    i < j < |pages| && pages[i].next.Some? && pages[j].next == pages[i].next
  }

  /** A prefix that ends in a repeat is a reason to stop. */
  lemma RepeatEnds<C>(start: Option<C>, pages: seq<Page<C>>, i: nat, j: nat)
    requires RepeatsAt(pages, i, j)
    ensures Ended(start, pages[..j + 1])
  {
    var upTo := pages[..j + 1];
    assert upTo[i].next == Some(upTo[j].next.value);
  }

  lemma NeverEndedBefore<C(!new)>(start: Option<C>, pages: seq<Page<C>>, maxPages: int, maxItems: int)
    requires KeptGoing(start, pages, maxPages, maxItems)
    ensures forall k :: 0 < k < |pages| ==> !Ended(start, pages[..k])
  {
    forall k | 0 < k < |pages|
      ensures !Ended(start, pages[..k])
    {
      assert GoesOn(start, pages[..k], maxPages, maxItems);
    }
  }

  /**
    * Against any pager, a walk that reports truncated false read the provider's last page if and only if
    * no cursor repeated; with a repeat it stopped there instead.
    */
  lemma CompleteIff<C(!new)>(fetch: (nat, Option<C>) -> Option<Page<C>>, start: Option<C>, maxPages: int, maxItems: int,
                             r: Collected, pages: seq<Page<C>>)
    requires WalkedBy(fetch, start, maxPages, maxItems, Some(r), pages) && !r.truncated
    ensures pages[|pages| - 1].next.None? <==> !Repeats(start, pages)
  {
    hide Dedup, Flatten, ReadInOrder;
    var last := |pages| - 1;
    NeverEndedBefore(start, pages, maxPages, maxItems);
    if i, j :| 0 <= i < j < |pages| && RepeatsAt(pages, i, j) {
      RepeatEnds(start, pages, i, j);
    }
    if start.Some? && pages[0].next == start {
      assert pages[..1][0] == pages[0];
    }
    if pages[last].next.Some? {
      var c := pages[last].next.value;
      if Followed(pages, c) {
        var i :| 0 <= i < |pages| - 1 && pages[i].next == Some(c);
        assert RepeatsAt(pages, i, last);
      }
    }
  }

  // ---- evm.ts: a cursor belongs to the provider that issued it ----

  datatype Provider = Primary | Backup

  datatype ProviderCursor = ProviderCursor(p: Provider, page: nat)

  /** The primary answers the k-th call if it is up, else the backup; each starts over on a cursor of the other. */
  function FailoverPager(primary: seq<seq<Transfer>>, backup: seq<seq<Transfer>>, up: nat -> bool):
      (nat, Option<ProviderCursor>) -> Option<Page<ProviderCursor>> {
    (k: nat, cursor: Option<ProviderCursor>) =>
      var p := if up(k) then Primary else Backup;
      Some(ProviderPage(p, if up(k) then primary else backup, if cursor.Some? && cursor.value.p == p then cursor.value.page else 0))
  }

  function ProviderPage(p: Provider, pages: seq<seq<Transfer>>, page: nat): Page<ProviderCursor> {
    if page >= |pages| then Page([], None)
    else Page(pages[page], if page + 1 < |pages| then Some(ProviderCursor(p, page + 1)) else None)
  }

  /**
    * Failover on the second call and failback on the third: whatever the two providers hold beyond their first
    * pages is never read, and the walk still says that nothing was cut off.
    */
  lemma FailbackLosesPages(primary: seq<seq<Transfer>>, backup: seq<seq<Transfer>>, maxPages: int, maxItems: int,
                           r: Collected, pages: seq<Page<ProviderCursor>>)
    requires |primary| >= 2 && |backup| >= 2
    requires WalkedBy(FailoverPager(primary, backup, k => k != 1), None, maxPages, maxItems, Some(r), pages) && !r.truncated
    ensures r.pages == 3 && Repeats(None, pages)
    ensures Keys(r.items) == Keys(primary[0]) + Keys(backup[0])
  {
    hide Dedup, Flatten, Keys;
    var fetch := FailoverPager(primary, backup, k => k != 1);
    NeverEndedBefore(None, pages, maxPages, maxItems);
    assert AnsweredAt(fetch, None, pages, 0);
    assert pages[0] == ProviderPage(Primary, primary, 0);
    if |pages| > 1 {
      assert AnsweredAt(fetch, None, pages, 1);
      assert pages[1] == ProviderPage(Backup, backup, 0);
    }
    if |pages| > 2 {
      assert AnsweredAt(fetch, None, pages, 2);
      assert pages[2] == ProviderPage(Primary, primary, 0);
      assert RepeatsAt(pages, 0, 2);
      RepeatEnds(None, pages, 0, 2);
    }
    assert pages[..|pages|] == pages;
    KeysOfThree(pages);
    DedupKeys(Flatten(pages));
  }

  lemma KeysOfThree<C>(pages: seq<Page<C>>)
    requires |pages| == 3 && pages[2].items == pages[0].items
    ensures Keys(Flatten(pages)) == Keys(pages[0].items) + Keys(pages[1].items)
  {
    hide Keys, Flatten;
    assert pages[..0] == [] && pages[..3] == pages;
    NothingFlat<C>();
    for i := 0 to 3
      invariant i > 0 ==> Keys(Flatten(pages[..i])) == Keys(pages[0].items) + if i > 1 then Keys(pages[1].items) else {}
      invariant i == 0 ==> Keys(Flatten(pages[..i])) == {}
    {
      assert pages[..i + 1] == pages[..i] + [pages[i]];
      FlattenAdd(pages[..i], pages[i]);
      KeysConcat(Flatten(pages[..i]), pages[i].items);
    }
  }

  lemma NothingFlat<C>()
    ensures Keys(Flatten<C>([])) == {}
  {
  }

  lemma KeysConcat(a: seq<Transfer>, b: seq<Transfer>)
    ensures Keys(a + b) == Keys(a) + Keys(b)
  {
    assert forall t :: t in a + b <==> t in a || t in b;
  }
}
