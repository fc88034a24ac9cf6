// What the trace engine is fed: the collected walk of an address, priced transfer by transfer.
module TraceInputs {
  import opened Wrappers
  import opened Sequences
  import opened Transfers
  import opened Pagination
  import opened TransferIdx
  import opened TronWalk
  import opened TraceRows

  /** Pricing changes nothing but the USD value. */
  function Enriched(items: seq<Transfer>, price: Transfer -> Option<real>): (r: seq<Transfer>)
    ensures |r| == |items| && forall i :: 0 <= i < |r| ==> r[i] == items[i].(usd := price(items[i]))
  {
    seq(|items|, i requires 0 <= i < |items| => items[i].(usd := price(items[i])))
  }

  lemma {:induction false} DistinctIsUnique(items: seq<Transfer>)
    requires forall i, j :: 0 <= i < j < |items| ==> EdgeKeyOf(items[i]) != EdgeKeyOf(items[j])
    ensures UniqueKeys(items)
  {
    if items != [] {
      var k := |items| - 1;
      DistinctIsUnique(items[..k]);
      BagHas(items[..k], EdgeKeyOf, EdgeKeyOf(items[k]));
      forall x | x in items[..k]
        ensures EdgeKeyOf(x) != EdgeKeyOf(items[k])
      {
        var i :| 0 <= i < k && items[i] == x;
      }
      assert BagBy(items, EdgeKeyOf) == BagBy(items[..k], EdgeKeyOf) + multiset{EdgeKeyOf(items[k])};
    }
  }

  lemma UniqueIsDistinct(items: seq<Transfer>, i: nat, j: nat)
    requires UniqueKeys(items) && i < j < |items|
    ensures EdgeKeyOf(items[i]) != EdgeKeyOf(items[j])
  {
    var front, back := items[..j], items[j..];
    assert items == front + back;
    BagAppend(front, back, EdgeKeyOf);
    BagHas(front, EdgeKeyOf, EdgeKeyOf(items[i]));
    BagHas(back, EdgeKeyOf, EdgeKeyOf(items[j]));
    assert front[i] == items[i] && back[0] == items[j];
    assert items[i] in front && items[j] in back;
    var key := EdgeKeyOf(items[i]);
    assert BagBy(items, EdgeKeyOf)[key] == BagBy(front, EdgeKeyOf)[key] + BagBy(back, EdgeKeyOf)[key];
  }

  // ---- what is left of a clash after the walk's own deduplication ----

  /** Two of the transfers share (txHash, idx) but not their parties. */
  ghost predicate Mixed(items: seq<Transfer>) {
    exists x, y :: x in items && y in items && EdgeKeyOf(x) == EdgeKeyOf(y) && KeyOf(x) != KeyOf(y)
  }

  lemma DedupMember(items: seq<Transfer>, x: Transfer) returns (y: Transfer)
    requires x in items
    ensures y in Dedup(items) && KeyOf(y) == KeyOf(x)
  {
    hide Dedup;
    DedupKeys(items);
    assert KeyOf(x) in Keys(Dedup(items));
    y :| y in Dedup(items) && KeyOf(y) == KeyOf(x);
  }

  lemma {:induction false} DedupSubset(items: seq<Transfer>)
    ensures forall x :: x in Dedup(items) ==> x in items
  {
    if items != [] {
      DedupSubset(items[..|items| - 1]);
    }
  }

  /** Deduplication by all of txHash, idx, from and to leaves distinct (txHash, idx) exactly when nothing was mixed. */
  lemma DedupUniqueIff(items: seq<Transfer>, price: Transfer -> Option<real>)
    ensures UniqueKeys(Enriched(Dedup(items), price)) <==> !Mixed(items)
  {
    hide Dedup, UniqueKeys;
    var kept := Dedup(items);
    var r := Enriched(kept, price);
    DedupKeys(items);
    DedupSubset(items);
    if Mixed(items) {
      var x, y :| x in items && y in items && EdgeKeyOf(x) == EdgeKeyOf(y) && KeyOf(x) != KeyOf(y);
      var x' := DedupMember(items, x);
      var y' := DedupMember(items, y);
      var i :| 0 <= i < |kept| && kept[i] == x';
      var j :| 0 <= j < |kept| && kept[j] == y';
      if UniqueKeys(r) {
        UniqueIsDistinct(r, if i < j then i else j, if i < j then j else i);
      }
    } else {
      forall i, j | 0 <= i < j < |r|
        ensures EdgeKeyOf(r[i]) != EdgeKeyOf(r[j])
      {
        assert kept[i] in items && kept[j] in items;
      }
      DistinctIsUnique(r);
    }
  }

  // ---- when a TRON walk gives the engine distinct keys ----

  /** The pages of both stages, in the order they are read. */
  ghost function RowsAt(h: History, p: nat): seq<Row>
    requires p < |h.trc20| + |h.trx|
  {
    if p < |h.trc20| then RowsOf(h.trc20[p], NormalizeTrc20) else RowsOf(h.trx[p - |h.trc20|], NormalizeTrx)
  }

  function BaseAt(h: History, p: nat): nat {
    if p < |h.trc20| then IDX_TOKEN_BASE else IDX_NATIVE
  }

  /** Row i of page p and row j of page q belong to one transaction and get one idx, but have other parties. */
  ghost predicate PagesClash(lt: (SortKey, SortKey) -> bool, h: History, p: nat, i: nat, q: nat, j: nat) {
    && p < q < |h.trc20| + |h.trx| && i < |RowsAt(h, p)| && j < |RowsAt(h, q)|
    && var a, b := RowsAt(h, p)[i], RowsAt(h, q)[j];
      && a.txHash == b.txHash && (a.from, a.to) != (b.from, b.to)
      && BaseAt(h, p) + Rank(lt, RowsAt(h, p), i) == BaseAt(h, q) + Rank(lt, RowsAt(h, q), j)
  }

  ghost predicate ItemAt(lt: (SortKey, SortKey) -> bool, h: History, p: nat, i: nat, x: Transfer) {
    p < |h.trc20| + |h.trx| && i < |RowsAt(h, p)| && x == WithIdx(RowsAt(h, p)[i], BaseAt(h, p) + Rank(lt, RowsAt(h, p), i))
  }

  lemma PageHas(lt: (SortKey, SortKey) -> bool, h: History, p: nat, x: Transfer)
    requires p < |h.trc20| + |h.trx|
    ensures x in PageItems(lt, h, p) <==> exists i: nat :: ItemAt(lt, h, p, i, x)
  {
    hide Rank, RowsOf;
    if x in PageItems(lt, h, p) {
      var i :| 0 <= i < |PageItems(lt, h, p)| && PageItems(lt, h, p)[i] == x;
      assert ItemAt(lt, h, p, i, x);
    }
    if i: nat :| ItemAt(lt, h, p, i, x) {
      assert PageItems(lt, h, p)[i] == x;
    }
  }

  lemma {:induction false} PagesHave(lt: (SortKey, SortKey) -> bool, h: History, n: nat, x: Transfer)
    requires n <= |h.trc20| + |h.trx|
    ensures x in FirstPages(lt, h, n) <==> exists p: nat, i: nat :: p < n && ItemAt(lt, h, p, i, x)
  {
    hide ItemAt, PageItems;
    if n > 0 {
      hide FirstPages;
      PagesHave(lt, h, n - 1, x);
      OnePageMore(lt, h, n - 1);
      PageHas(lt, h, n - 1, x);
    }
  }

  /** Inside one page no two rows of a transaction get one idx. */
  lemma PagesMixed(lt: (SortKey, SortKey) -> bool, h: History)
    requires StrictOrder(lt)
    ensures Mixed(FirstPages(lt, h, |h.trc20| + |h.trx|)) <==> exists p: nat, i: nat, q: nat, j: nat :: PagesClash(lt, h, p, i, q, j)
  {
    hide FirstPages, Rank, RowsOf, RowsAt, StrictOrder;
    var n := |h.trc20| + |h.trx|;
    if Mixed(FirstPages(lt, h, n)) {
      var x, y :| x in FirstPages(lt, h, n) && y in FirstPages(lt, h, n) && EdgeKeyOf(x) == EdgeKeyOf(y) && KeyOf(x) != KeyOf(y);
      PagesHave(lt, h, n, x);
      PagesHave(lt, h, n, y);
      var p: nat, i: nat :| p < n && ItemAt(lt, h, p, i, x);
      var q: nat, j: nat :| q < n && ItemAt(lt, h, q, j, y);
      if p == q {
        OneEach(lt, RowsAt(h, p), i, j);
      }
      assert PagesClash(lt, h, p, i, q, j) || PagesClash(lt, h, q, j, p, i);
    }
    if p: nat, i: nat, q: nat, j: nat :| PagesClash(lt, h, p, i, q, j) {
      var x := WithIdx(RowsAt(h, p)[i], BaseAt(h, p) + Rank(lt, RowsAt(h, p), i));
      var y := WithIdx(RowsAt(h, q)[j], BaseAt(h, q) + Rank(lt, RowsAt(h, q), j));
      assert ItemAt(lt, h, p, i, x) && ItemAt(lt, h, q, j, y);
      PagesHave(lt, h, n, x);
      PagesHave(lt, h, n, y);
    }
  }

  lemma OneEach(lt: (SortKey, SortKey) -> bool, rows: seq<Row>, i: nat, j: nat)
    requires StrictOrder(lt) && i < |rows| && j < |rows| && i != j && rows[i].txHash == rows[j].txHash
    ensures Rank(lt, rows, i) != Rank(lt, rows, j)
  {
    hide StrictOrder, Rank;
    IdxDistinct(lt, rows, if i < j then i else j, if i < j then j else i);
  }

  /** A complete walk gives the engine distinct (txHash, idx) exactly when no two pages clash. */
  lemma TronKeysIff(lt: (SortKey, SortKey) -> bool, server: Server, h: History, maxPages: int, maxItems: int,
                    r: Collected, read: seq<Page<Cursor>>, price: Transfer -> Option<real>)
    requires StrictOrder(lt) && ServedBy(server, h)
    requires WalkedBy(Pager(lt, server), None, maxPages, maxItems, Some(r), read) && !r.truncated
    ensures UniqueKeys(Enriched(r.items, price)) <==> !exists p: nat, i: nat, q: nat, j: nat :: PagesClash(lt, h, p, i, q, j)
  {
    hide StrictOrder, ServedBy, WalkedBy, UniqueKeys, PagesClash, Mixed, PagedIdx;
    WalkReturnsPages(lt, server, h, maxPages, maxItems, r, read);
    assert Usdt(h)[..|h.trc20|] == Usdt(h) && Trx(h)[..|h.trx|] == Trx(h);
    assert FirstPages(lt, h, |h.trc20| + |h.trx|) == Paged(lt, h);
    DedupUniqueIff(Paged(lt, h), price);
    PagesMixed(lt, h);
  }

  lemma TxOnPage(h: History, p: nat, i: nat)
    requires p < |h.trc20| + |h.trx| && i < |RowsAt(h, p)|
    ensures p < |h.trc20| ==> HasTx(Usdt(h)[p], RowsAt(h, p)[i].txHash) && HasTx(Concat(Usdt(h)), RowsAt(h, p)[i].txHash)
    ensures p >= |h.trc20| ==>
      HasTx(Trx(h)[p - |h.trc20|], RowsAt(h, p)[i].txHash) && HasTx(Concat(Trx(h)), RowsAt(h, p)[i].txHash)
  {
    hide Concat, RowsOf;
    ConcatHas(Usdt(h), RowsAt(h, p)[i].txHash);
    ConcatHas(Trx(h), RowsAt(h, p)[i].txHash);
  }

  /** The pages that clash are of one stage, where no transaction moves both coins. */
  lemma ClashInOneStage(lt: (SortKey, SortKey) -> bool, h: History, p: nat, i: nat, q: nat, j: nat)
    requires PagesClash(lt, h, p, i, q, j) && StagesApart(h)
    ensures p < |h.trc20| <==> q < |h.trc20|
  {
    hide Rank, Concat, RowsAt, Usdt, Trx;
    TxOnPage(h, p, i);
    TxOnPage(h, q, j);
  }

  /** So a walk whose pages cut no transaction in two gives distinct keys. */
  lemma TronOutflowsDistinct(lt: (SortKey, SortKey) -> bool, server: Server, h: History, maxPages: int, maxItems: int,
                             r: Collected, read: seq<Page<Cursor>>, price: Transfer -> Option<real>)
    requires StrictOrder(lt) && ServedBy(server, h) && StagesApart(h)
    requires WalkedBy(Pager(lt, server), None, maxPages, maxItems, Some(r), read) && !r.truncated
    requires NoStraddle(Usdt(h)) && NoStraddle(Trx(h))
    ensures UniqueKeys(Enriched(r.items, price))
  {
    hide StrictOrder, ServedBy, WalkedBy, UniqueKeys, PagesClash, StagesApart;
    TronKeysIff(lt, server, h, maxPages, maxItems, r, read, price);
    forall p: nat, i: nat, q: nat, j: nat
      ensures !PagesClash(lt, h, p, i, q, j)
    {
      UncutPages(lt, h, p, i, q, j);
    }
  }

  lemma UncutPages(lt: (SortKey, SortKey) -> bool, h: History, p: nat, i: nat, q: nat, j: nat)
    requires StagesApart(h) && NoStraddle(Usdt(h)) && NoStraddle(Trx(h))
    ensures !PagesClash(lt, h, p, i, q, j)
  {
    hide Rank, Concat, RowsAt, HasTx, StagesApart;
    if PagesClash(lt, h, p, i, q, j) {
      ClashInOneStage(lt, h, p, i, q, j);
      TxOnPage(h, p, i);
      TxOnPage(h, q, j);
    }
  }

  function Usdt1(to: string): Trc20Item {
    Trc20Item("tx", "a", to, 1, None, Some(USDT_TRC20), None, 0)
  }

  /** One transaction, a row on each of two pages. */
  function CutHistory(first: string, second: string): History {
    History([[Usdt1(first)], [Usdt1(second)]], ["f"], [[]], [])
  }

  lemma CutRows(lt: (SortKey, SortKey) -> bool, x: Trc20Item)
    requires StrictOrder(lt) && x == Usdt1(x.to)
    ensures var rows := RowsOf([x], NormalizeTrc20);
      |rows| == 1 && rows[0].txHash == "tx" && rows[0].from == "a" && rows[0].to == x.to && Rank(lt, rows, 0) == 0
  {
    assert [x][..0] == [];
    assert RowsOf<Trc20Item>([], NormalizeTrc20) == [];
    assert NormalizeTrc20(x).Some?;
    var rows := RowsOf([x], NormalizeTrc20);
    assert rows == [NormalizeTrc20(x).value];
    assert rows[..0] == [];
    assert CountSame([], rows[0]) == 0 && CountBelow(lt, [], rows[0]) == 0;
  }

  /** Two payments of one transaction, each first on its page, clash; the same row read twice does not. */
  lemma CutClashes(lt: (SortKey, SortKey) -> bool, first: string, second: string)
    requires StrictOrder(lt)
    ensures PagesClash(lt, CutHistory(first, second), 0, 0, 1, 0) <==> first != second
    ensures forall p: nat, i: nat, q: nat, j: nat ::
      PagesClash(lt, CutHistory(first, second), p, i, q, j) ==> (p, i, q, j) == (0, 0, 1, 0)
  {
    hide Rank, RowsOf, StrictOrder;
    CutRows(lt, Usdt1(first));
    CutRows(lt, Usdt1(second));
    NoTrxRows();
  }

  lemma NoTrxRows()
    ensures RowsOf<TrxItem>([], NormalizeTrx) == []
  {
  }
}
