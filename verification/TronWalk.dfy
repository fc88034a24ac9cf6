// workers/adapters/tron.ts, getTransfers: USDT history first, TRX history second, each page numbered on its own.
module TronWalk {
  import opened Pagination
  import opened Sequences
  import opened TransferIdx
  import opened Units
  import opened Transfers
  import opened Wrappers

  const STAGE_TRC20: int := 0
  const STAGE_TRX: int := 1
  const IDX_NATIVE: nat := 0
  const IDX_TOKEN_BASE: nat := 1
  const USDT_TRC20 := "TR7NHqjeKQxGTCi8q8ZY4pL8otSzgjLj6t"

  datatype Cursor = Cursor(s: int, c: Option<string>)

  /** None where the provider leaves a field out. */
  datatype Trc20Item = Trc20Item(txHash: string, from: string, to: string, value: int, kind: Option<string>,
                                 token: Option<string>, decimals: Option<nat>, ts: int)
  datatype TrxItem = TrxItem(txHash: string, ts: int, kind: Option<string>, owner: Option<string>, to: Option<string>,
                             amount: Option<int>, ret: Option<string>)

  datatype Reply<T> = Reply(rows: seq<T>, fingerprint: Option<string>)

  /** What TronGrid answers for one address and direction, by fingerprint. */
  datatype Server = Server(trc20: Option<string> -> Reply<Trc20Item>, trx: Option<string> -> Reply<TrxItem>)

  /** Transfers of the official contract only. */
  function NormalizeTrc20(r: Trc20Item): Option<Row> {
    if (r.kind.None? || r.kind.value == "Transfer") && r.token == Some(USDT_TRC20) then
      var decimals := if r.decimals.Some? then r.decimals.value else 6;
      Some(Row(r.txHash, r.from, r.to, USDT_TRC20, FormatUnits(r.value, decimals), r.ts))
    else
      None
  }

  /** A field that holds something: an empty text counts as none. */
  predicate Given(field: Option<string>) {
    field.Some? && field.value != ""
  }

  /** Contract calls carry no TRX, and failed transactions move nothing. */
  function NormalizeTrx(r: TrxItem): Option<Row> {
    if r.kind != Some("TransferContract") || !Given(r.owner) || !Given(r.to) || r.amount.None? then None
    else if Given(r.ret) && r.ret.value != "SUCCESS" then None
    else Some(Row(r.txHash, r.owner.value, r.to.value, "TRX", FormatUnits(r.amount.value, 6), r.ts))
  }

  function RowsOf<T>(items: seq<T>, normalize: T -> Option<Row>): seq<Row> {
    if items == [] then []
    else
      var rest, last := RowsOf(items[..|items| - 1], normalize), normalize(items[|items| - 1]);
      if last.Some? then rest + [last.value] else rest
  }

  /** The cursor a page hands out; a fingerprint that repeats the one it was asked with counts as none. */
  function NextCursor(stage: int, asked: Option<string>, fingerprint: Option<string>): Option<Cursor> {
    if Given(fingerprint) && fingerprint != asked then Some(Cursor(stage, fingerprint))
    else if stage == STAGE_TRC20 then Some(Cursor(STAGE_TRX, None))
    else None
  }

  ghost function PageAt(lt: (SortKey, SortKey) -> bool, server: Server, cursor: Option<Cursor>): Page<Cursor> {
    var cur := if cursor.Some? then cursor.value else Cursor(STAGE_TRC20, None);
    if cur.s == STAGE_TRX then
      var res := server.trx(cur.c);
      Page(Ranked(lt, RowsOf(res.rows, NormalizeTrx), IDX_NATIVE), NextCursor(STAGE_TRX, cur.c, res.fingerprint))
    else
      var res := server.trc20(cur.c);
      Page(Ranked(lt, RowsOf(res.rows, NormalizeTrc20), IDX_TOKEN_BASE), NextCursor(STAGE_TRC20, cur.c, res.fingerprint))
  }

  method GetTransfers(lt: (SortKey, SortKey) -> bool, server: Server, cursor: Option<Cursor>) returns (page: Page<Cursor>)
    requires StrictOrder(lt)
    ensures page == PageAt(lt, server, cursor)
  {
    var cur := if cursor.Some? then cursor.value else Cursor(STAGE_TRC20, None);
    var items: seq<Transfer>;
    var fingerprint: Option<string>;
    var stage := if cur.s == STAGE_TRX then STAGE_TRX else STAGE_TRC20;
    if stage == STAGE_TRC20 {
      var res := server.trc20(cur.c);
      items := AssignIdx(lt, RowsOf(res.rows, NormalizeTrc20), IDX_TOKEN_BASE);
      fingerprint := res.fingerprint;
    } else {
      var res := server.trx(cur.c);
      items := AssignIdx(lt, RowsOf(res.rows, NormalizeTrx), IDX_NATIVE);
      fingerprint := res.fingerprint;
    }
    page := Page(items, NextCursor(stage, cur.c, fingerprint));
  }

  ghost function Pager(lt: (SortKey, SortKey) -> bool, server: Server): (nat, Option<Cursor>) -> Option<Page<Cursor>> {
    (i: nat, cursor: Option<Cursor>) => Some(PageAt(lt, server, cursor))
  }

  // ---- a server that pages through a list with fingerprints that do not repeat ----

  ghost function Asked(prints: seq<string>, i: nat): Option<string>
    requires i <= |prints|
  {
    if i == 0 then None else Some(prints[i - 1])
  }

  ghost predicate Serves<T>(answer: Option<string> -> Reply<T>, pages: seq<seq<T>>, prints: seq<string>) {
    && |pages| == |prints| + 1
    && (forall i, j :: 0 <= i < j < |prints| ==> prints[i] != prints[j])
    && (forall i :: 0 <= i < |prints| ==> prints[i] != "")
    && forall i :: 0 <= i < |pages| ==> ServesAt(answer, pages, prints, i)
  }

  ghost predicate ServesAt<T>(answer: Option<string> -> Reply<T>, pages: seq<seq<T>>, prints: seq<string>, i: nat)
    requires i < |pages| == |prints| + 1
  {
    var reply := answer(Asked(prints, i));
    && reply.rows == pages[i]
    && (if i < |prints| then reply.fingerprint == Some(prints[i])
        else !Given(reply.fingerprint) || reply.fingerprint == Asked(prints, i))
  }

  datatype History = History(trc20: seq<seq<Trc20Item>>, prints0: seq<string>, trx: seq<seq<TrxItem>>, prints1: seq<string>)

  ghost predicate ServedBy(server: Server, h: History) {
    Serves(server.trc20, h.trc20, h.prints0) && Serves(server.trx, h.trx, h.prints1)
  }

  ghost function CursorAt(h: History, i: nat): Option<Cursor>
    requires |h.trc20| == |h.prints0| + 1 && i < |h.trc20| + |h.trx| && |h.trx| == |h.prints1| + 1
  {
    if i == 0 then None
    else if i < |h.trc20| then Some(Cursor(STAGE_TRC20, Some(h.prints0[i - 1])))
    else Some(Cursor(STAGE_TRX, Asked(h.prints1, i - |h.trc20|)))
  }

  ghost function PageItems(lt: (SortKey, SortKey) -> bool, h: History, i: nat): seq<Transfer>
    requires i < |h.trc20| + |h.trx|
  {
    if i < |h.trc20| then Ranked(lt, RowsOf(h.trc20[i], NormalizeTrc20), IDX_TOKEN_BASE)
    else Ranked(lt, RowsOf(h.trx[i - |h.trc20|], NormalizeTrx), IDX_NATIVE)
  }

  // ---- which of the provider's items become transfers ----

  /** rows are those of the items at these positions, in order, and no other item gives one. */
  ghost predicate KeptRows<T>(items: seq<T>, normalize: T -> Option<Row>, rows: seq<Row>, at: seq<nat>) {
    && |at| == |rows| && (forall i, j :: 0 <= i < j < |at| ==> at[i] < at[j])
    && (forall i :: 0 <= i < |at| ==> at[i] < |items| && normalize(items[at[i]]) == Some(rows[i]))
    && (forall k: nat :: k < |items| && normalize(items[k]).Some? ==> k in at)
  }

  lemma RowKept<T>(items: seq<T>, normalize: T -> Option<Row>, rows: seq<Row>, at: seq<nat>)
    requires items != [] && KeptRows(items[..|items| - 1], normalize, rows, at)
    ensures var n, row := |items| - 1, normalize(items[|items| - 1]);
      if row.Some? then KeptRows(items, normalize, rows + [row.value], at + [n]) else KeptRows(items, normalize, rows, at)
  {
    var n: nat := |items| - 1;
    var init := items[..n];
    assert forall k: nat :: k < n ==> init[k] == items[k];
    forall k: nat | k < n && normalize(items[k]).Some?
      ensures k in at
    {
      assert normalize(init[k]).Some?;
    }
    if normalize(items[n]).Some? {
      var more := at + [n];
      assert more[|at|] == n;
      assert forall k :: k in at ==> k in more;
    }
  }

  lemma {:induction false} RowsKept<T>(items: seq<T>, normalize: T -> Option<Row>) returns (at: seq<nat>)
    ensures KeptRows(items, normalize, RowsOf(items, normalize), at)
  {
    hide KeptRows;
    if items == [] {
      at := [];
      NoRowsKept(items, normalize);
    } else {
      at := RowsKept(items[..|items| - 1], normalize);
      RowKept(items, normalize, RowsOf(items[..|items| - 1], normalize), at);
      if normalize(items[|items| - 1]).Some? {
        at := at + [|items| - 1];
      }
    }
  }

  lemma NoRowsKept<T>(items: seq<T>, normalize: T -> Option<Row>)
    requires items == []
    ensures KeptRows(items, normalize, [], [])
  {
  }

  /** A USDT transfer of the official contract. */
  predicate IsUsdt(r: Trc20Item) {
    (r.kind.None? || r.kind == Some("Transfer")) && r.token == Some("TR7NHqjeKQxGTCi8q8ZY4pL8otSzgjLj6t")
  }

  /** A TRX transfer between two addresses that did not fail. */
  predicate IsTrx(r: TrxItem) {
    && r.kind == Some("TransferContract") && r.amount.Some?
    && r.owner.Some? && r.owner.value != "" && r.to.Some? && r.to.value != ""
    && (r.ret.None? || r.ret.value == "" || r.ret.value == "SUCCESS")
  }

  /** t is r with its parties, time and amount: six decimals unless the provider says otherwise. */
  predicate UsdtAs(r: Trc20Item, t: Transfer) {
    && t == Transfer(r.txHash, t.idx, r.from, r.to, "TR7NHqjeKQxGTCi8q8ZY4pL8otSzgjLj6t", t.amount, None, r.ts)
    && t.amount == FormatUnits(r.value, if r.decimals.None? then 6 else r.decimals.value)
  }

  predicate TrxAs(r: TrxItem, t: Transfer) {
    r.owner.Some? && r.to.Some? && r.amount.Some? &&
    t == Transfer(r.txHash, t.idx, r.owner.value, r.to.value, "TRX", FormatUnits(r.amount.value, 6), None, r.ts)
  }

  /** A page of the first stage lists its official USDT transfers, all of them and in order. */
  lemma UsdtPage(lt: (SortKey, SortKey) -> bool, h: History, p: nat) returns (at: seq<nat>)
    requires p < |h.trc20|
    ensures |at| == |PageItems(lt, h, p)| && forall i, j :: 0 <= i < j < |at| ==> at[i] < at[j]
    ensures forall k: nat :: k in at <==> k < |h.trc20[p]| && IsUsdt(h.trc20[p][k])
    ensures forall i :: 0 <= i < |at| ==> at[i] < |h.trc20[p]| && UsdtAs(h.trc20[p][at[i]], PageItems(lt, h, p)[i])
    // numbered from one by rank among the page's rows
    ensures forall i :: 0 <= i < |at| ==> PageItems(lt, h, p)[i].idx == 1 + Rank(lt, RowsOf(h.trc20[p], NormalizeTrc20), i)
  {
    hide RowsOf, FormatUnits, Rank;
    at := RowsKept(h.trc20[p], NormalizeTrc20);
  }

  /** A page of the second stage lists the TRX transfers between addresses that did not fail, in the same way. */
  lemma TrxPage(lt: (SortKey, SortKey) -> bool, h: History, p: nat) returns (at: seq<nat>)
    requires p < |h.trx|
    ensures |at| == |PageItems(lt, h, |h.trc20| + p)| && forall i, j :: 0 <= i < j < |at| ==> at[i] < at[j]
    ensures forall k: nat :: k in at <==> k < |h.trx[p]| && IsTrx(h.trx[p][k])
    ensures forall i :: 0 <= i < |at| ==> at[i] < |h.trx[p]| && TrxAs(h.trx[p][at[i]], PageItems(lt, h, |h.trc20| + p)[i])
    // numbered from zero
    ensures forall i :: 0 <= i < |at| ==> PageItems(lt, h, |h.trc20| + p)[i].idx == Rank(lt, RowsOf(h.trx[p], NormalizeTrx), i)
  {
    hide RowsOf, FormatUnits, Rank;
    at := RowsKept(h.trx[p], NormalizeTrx);
  }

  /** Following the cursors visits the pages of both stages in order. */
  lemma PageAtCursor(lt: (SortKey, SortKey) -> bool, server: Server, h: History, i: nat)
    requires ServedBy(server, h) && i < |h.trc20| + |h.trx|
    ensures PageAt(lt, server, CursorAt(h, i)).items == PageItems(lt, h, i)
    ensures PageAt(lt, server, CursorAt(h, i)).next == NextAt(h, i)
  {
    hide Ranked, RowsOf, NormalizeTrc20, NormalizeTrx;
    if i < |h.trc20| {
      assert ServesAt(server.trc20, h.trc20, h.prints0, i);
    } else {
      assert ServesAt(server.trx, h.trx, h.prints1, i - |h.trc20|);
    }
  }

  lemma CursorsDiffer(server: Server, h: History, i: nat, j: nat)
    requires ServedBy(server, h) && i < j < |h.trc20| + |h.trx|
    ensures CursorAt(h, i) != CursorAt(h, j) && CursorAt(h, j).Some?
  {
  }

  ghost function NextAt(h: History, i: nat): Option<Cursor>
    requires |h.trc20| == |h.prints0| + 1 && |h.trx| == |h.prints1| + 1
  {
    if i + 1 < |h.trc20| + |h.trx| then CursorAt(h, i + 1) else None
  }

  /** The walk reads a prefix of the pages, and unless a ceiling cut it off, all of them. */
  lemma WalkReadsHistory(lt: (SortKey, SortKey) -> bool, server: Server, h: History, maxPages: int, maxItems: int,
                         r: Collected, read: seq<Page<Cursor>>)
    requires ServedBy(server, h) && WalkedBy(Pager(lt, server), None, maxPages, maxItems, Some(r), read)
    ensures |read| <= |h.trc20| + |h.trx|
    ensures forall i :: 0 <= i < |read| ==> read[i].items == PageItems(lt, h, i)
    ensures r.truncated <==> |read| < |h.trc20| + |h.trx|
  {
    hide PageAt, Dedup, Flatten, PageItems, CursorAt, KeptGoing, ServedBy;
    var n := ServedPages(server, h);
    WalkPrefix(lt, server, h, read, |read|);
    var last := |read| - 1;
    if |read| < n && Ended(None, read) {
      assert read[last].next == CursorAt(h, last + 1);
      CursorsDiffer(server, h, 0, last + 1);
      var c := read[last].next.value;
      assert Followed(read, c);
      var i :| 0 <= i < last && read[i].next == Some(c);
      CursorsDiffer(server, h, i + 1, last + 1);
      assert false;
    }
  }

  lemma ServedPages(server: Server, h: History) returns (n: nat)
    requires ServedBy(server, h)
    ensures n == |h.trc20| + |h.trx|
    ensures |h.trc20| == |h.prints0| + 1 && |h.trx| == |h.prints1| + 1
  {
    n := |h.trc20| + |h.trx|;
  }

  lemma {:induction false} WalkPrefix(lt: (SortKey, SortKey) -> bool, server: Server, h: History, read: seq<Page<Cursor>>, k: nat)
    requires ServedBy(server, h) && ReadInOrder(Pager(lt, server), None, read) && k <= |read|
    ensures k <= |h.trc20| + |h.trx|
    ensures forall i :: 0 <= i < k ==> read[i].items == PageItems(lt, h, i)
    ensures forall i :: 0 <= i < k ==> read[i].next == NextAt(h, i)
  {
    hide PageAt, PageItems;
    if k > 0 {
      WalkPrefix(lt, server, h, read, k - 1);
      assert AnsweredAt(Pager(lt, server), None, read, k - 1);
      PageAtCursor(lt, server, h, k - 1);
    }
  }

  // ---- numbering page by page against numbering the whole history ----

  ghost function Concat(pages: seq<seq<Row>>): seq<Row> {
    if pages == [] then [] else Concat(pages[..|pages| - 1]) + pages[|pages| - 1]
  }

  ghost function PagedIdx(lt: (SortKey, SortKey) -> bool, pages: seq<seq<Row>>, base: nat): seq<Transfer> {
    if pages == [] then []
    else PagedIdx(lt, pages[..|pages| - 1], base) + Ranked(lt, pages[|pages| - 1], base)
  }

  ghost predicate HasTx(rows: seq<Row>, tx: string) {
    exists i :: 0 <= i < |rows| && rows[i].txHash == tx
  }

  /** No transaction has rows on two pages. */
  ghost predicate NoStraddle(pages: seq<seq<Row>>) {
    forall p, q, tx :: 0 <= p < q < |pages| && HasTx(pages[p], tx) ==> !HasTx(pages[q], tx)
  }

  lemma {:induction false} CountsNone(lt: (SortKey, SortKey) -> bool, rows: seq<Row>, r: Row)
    requires !HasTx(rows, r.txHash)
    ensures CountBelow(lt, rows, r) == 0 && CountSame(rows, r) == 0
  {
    if rows != [] {
      var k := |rows| - 1;
      assert rows[k].txHash != r.txHash;
      assert !HasTx(rows[..k], r.txHash) by {
        assert forall i :: 0 <= i < k ==> rows[..k][i] == rows[i];
      }
      CountsNone(lt, rows[..k], r);
    }
  }

  lemma RankOfConcat(lt: (SortKey, SortKey) -> bool, a: seq<Row>, b: seq<Row>, i: nat)
    requires i < |a + b|
    requires forall tx :: HasTx(a, tx) ==> !HasTx(b, tx)
    ensures Rank(lt, a + b, i) == if i < |a| then Rank(lt, a, i) else Rank(lt, b, i - |a|)
  {
    var r := (a + b)[i];
    CountsConcat(lt, a, b, r);
    if i < |a| {
      assert HasTx(a, r.txHash);
      CountsNone(lt, b, r);
      assert (a + b)[..i] == a[..i];
    } else {
      assert b[i - |a|] == r;
      assert HasTx(b, r.txHash);
      CountsNone(lt, a, r);
      assert (a + b)[..i] == a + b[..i - |a|];
      CountsConcat(lt, a, b[..i - |a|], r);
    }
  }

  lemma RankedConcat(lt: (SortKey, SortKey) -> bool, a: seq<Row>, b: seq<Row>, base: nat)
    requires forall tx :: HasTx(a, tx) ==> !HasTx(b, tx)
    ensures Ranked(lt, a + b, base) == Ranked(lt, a, base) + Ranked(lt, b, base)
  {
    hide Rank;
    forall i | 0 <= i < |a + b|
      ensures Ranked(lt, a + b, base)[i] == (Ranked(lt, a, base) + Ranked(lt, b, base))[i]
    {
      RankOfConcat(lt, a, b, i);
    }
  }

  lemma {:induction false} ConcatHas(pages: seq<seq<Row>>, tx: string)
    ensures HasTx(Concat(pages), tx) <==> exists p :: 0 <= p < |pages| && HasTx(pages[p], tx)
  {
    if pages != [] {
      var k := |pages| - 1;
      ConcatHas(pages[..k], tx);
      var a, b := Concat(pages[..k]), pages[k];
      if HasTx(a, tx) {
        var i :| 0 <= i < |a| && a[i].txHash == tx;
        assert (a + b)[i].txHash == tx;
        var p :| 0 <= p < k && HasTx(pages[..k][p], tx);
        assert HasTx(pages[p], tx);
      }
      if HasTx(b, tx) {
        var i :| 0 <= i < |b| && b[i].txHash == tx;
        assert (a + b)[|a| + i].txHash == tx;
      }
      if HasTx(a + b, tx) {
        var i :| 0 <= i < |a + b| && (a + b)[i].txHash == tx;
        assert if i < |a| then a[i].txHash == tx else b[i - |a|].txHash == tx;
      }
      if p :| 0 <= p < |pages| && HasTx(pages[p], tx) {
        assert p < k ==> HasTx(pages[..k][p], tx);
      }
    }
  }

  lemma {:induction false} WholePagesAgree(lt: (SortKey, SortKey) -> bool, pages: seq<seq<Row>>, base: nat)
    requires NoStraddle(pages)
    ensures PagedIdx(lt, pages, base) == Ranked(lt, Concat(pages), base)
  {
    hide Ranked, HasTx;
    if pages == [] {
      RankedEmpty(lt, base);
    } else {
      var k := |pages| - 1;
      assert NoStraddle(pages[..k]) by {
        assert forall p :: 0 <= p < k ==> pages[..k][p] == pages[p];
      }
      WholePagesAgree(lt, pages[..k], base);
      forall tx | HasTx(Concat(pages[..k]), tx)
        ensures !HasTx(pages[k], tx)
      {
        ConcatHas(pages[..k], tx);
        var p :| 0 <= p < k && HasTx(pages[..k][p], tx);
        assert HasTx(pages[p], tx);
      }
      RankedConcat(lt, Concat(pages[..k]), pages[k], base);
    }
  }

  lemma RankedEmpty(lt: (SortKey, SortKey) -> bool, base: nat)
    ensures Ranked(lt, [], base) == []
  {
  }

  /** A row no row of its transaction sorts below. */
  lemma {:induction false} LeastRow(lt: (SortKey, SortKey) -> bool, rows: seq<Row>, tx: string) returns (m: nat)
    requires StrictOrder(lt) && HasTx(rows, tx)
    ensures m < |rows| && rows[m].txHash == tx && CountBelow(lt, rows, rows[m]) == 0
  {
    var k := |rows| - 1;
    if HasTx(rows[..k], tx) {
      m := LeastRow(lt, rows[..k], tx);
      if Below(lt, rows[k], rows[m]) {
        LeastStays(lt, rows[..k], rows[m], rows[k]);
        m := k;
      }
    } else {
      assert rows[k].txHash == tx by {
        assert forall i :: 0 <= i < k ==> rows[..k][i] == rows[i];
      }
      m := k;
      CountsNone(lt, rows[..k], rows[k]);
    }
  }

  lemma {:induction false} LeastStays(lt: (SortKey, SortKey) -> bool, rows: seq<Row>, least: Row, lower: Row)
    requires StrictOrder(lt) && CountBelow(lt, rows, least) == 0 && Below(lt, lower, least)
    ensures CountBelow(lt, rows, lower) == 0
  {
    if rows != [] {
      LeastStays(lt, rows[..|rows| - 1], least, lower);
    }
  }

  lemma RankZero(lt: (SortKey, SortKey) -> bool, rows: seq<Row>, tx: string) returns (i: nat)
    requires StrictOrder(lt) && HasTx(rows, tx)
    ensures i < |rows| && rows[i].txHash == tx && Rank(lt, rows, i) == 0
  {
    var m := LeastRow(lt, rows, tx);
    CountSameMono(rows, rows[m], m + 1, |rows|);
    assert rows[..m + 1][..m] == rows[..m] && rows[..|rows|] == rows;
    i := SameAt(rows, rows[m], 0);
    CountsAgree(lt, rows, rows[i], rows[m]);
    CountsAgree(lt, rows[..i], rows[i], rows[m]);
  }

  /** Every page starts the numbering of its transactions again. */
  lemma {:induction false} FirstOfPages(lt: (SortKey, SortKey) -> bool, pages: seq<seq<Row>>, base: nat, tx: string) returns (i: nat)
    requires StrictOrder(lt) && HasTx(Concat(pages), tx)
    ensures i < |PagedIdx(lt, pages, base)|
    ensures PagedIdx(lt, pages, base)[i].txHash == tx && PagedIdx(lt, pages, base)[i].idx == base
  {
    hide StrictOrder, Rank, HasTx;
    var k := |pages| - 1;
    ConcatHas(pages, tx);
    ConcatHas(pages[..k], tx);
    if HasTx(Concat(pages[..k]), tx) {
      i := FirstOfPages(lt, pages[..k], base, tx);
    } else {
      assert forall p :: 0 <= p < k ==> pages[..k][p] == pages[p];
      var j := RankZero(lt, pages[k], tx);
      i := |PagedIdx(lt, pages[..k], base)| + j;
    }
  }

  ghost predicate Clash(s: seq<Transfer>, i: nat, j: nat) {
    i < j < |s| && s[i].txHash == s[j].txHash && s[i].idx == s[j].idx
  }

  lemma {:induction false} StraddleClashes(lt: (SortKey, SortKey) -> bool, pages: seq<seq<Row>>, base: nat) returns (i: nat, j: nat)
    requires StrictOrder(lt) && !NoStraddle(pages)
    ensures Clash(PagedIdx(lt, pages, base), i, j)
  {
    hide StrictOrder, Rank, HasTx;
    var k := |pages| - 1;
    var p, q, tx :| 0 <= p < q < |pages| && HasTx(pages[p], tx) && HasTx(pages[q], tx);
    if q < k {
      assert HasTx(pages[..k][p], tx) && HasTx(pages[..k][q], tx);
      i, j := StraddleClashes(lt, pages[..k], base);
    } else {
      assert HasTx(pages[..k][p], tx);
      ConcatHas(pages[..k], tx);
      i := FirstOfPages(lt, pages[..k], base, tx);
      var l := RankZero(lt, pages[k], tx);
      j := |PagedIdx(lt, pages[..k], base)| + l;
    }
  }

  lemma RankedNeverClashes(lt: (SortKey, SortKey) -> bool, rows: seq<Row>, base: nat)
    requires StrictOrder(lt)
    ensures forall i, j :: !Clash(Ranked(lt, rows, base), i, j)
  {
    hide StrictOrder, Rank;
    forall i: nat, j: nat | i < j < |rows| && rows[i].txHash == rows[j].txHash
      ensures Rank(lt, rows, i) != Rank(lt, rows, j)
    {
      IdxDistinct(lt, rows, i, j);
    }
  }

  /** Numbering each page on its own is the numbering of the whole list exactly when no transaction straddles two pages. */
  lemma PagedIffWhole(lt: (SortKey, SortKey) -> bool, pages: seq<seq<Row>>, base: nat)
    requires StrictOrder(lt)
    ensures PagedIdx(lt, pages, base) == Ranked(lt, Concat(pages), base) <==> NoStraddle(pages)
  {
    hide StrictOrder, Ranked, PagedIdx, NoStraddle, Clash;
    if NoStraddle(pages) {
      WholePagesAgree(lt, pages, base);
    } else {
      var i, j := StraddleClashes(lt, pages, base);
      RankedNeverClashes(lt, Concat(pages), base);
    }
  }

  // ---- the whole walk ----

  ghost function Usdt(h: History): seq<seq<Row>> {
    seq(|h.trc20|, i requires 0 <= i < |h.trc20| => RowsOf(h.trc20[i], NormalizeTrc20))
  }

  ghost function Trx(h: History): seq<seq<Row>> {
    seq(|h.trx|, i requires 0 <= i < |h.trx| => RowsOf(h.trx[i], NormalizeTrx))
  }

  /** What one unpaged answer of each stage would give. */
  ghost function Whole(lt: (SortKey, SortKey) -> bool, h: History): seq<Transfer> {
    Ranked(lt, Concat(Usdt(h)), IDX_TOKEN_BASE) + Ranked(lt, Concat(Trx(h)), IDX_NATIVE)
  }

  ghost function Paged(lt: (SortKey, SortKey) -> bool, h: History): seq<Transfer> {
    PagedIdx(lt, Usdt(h), IDX_TOKEN_BASE) + PagedIdx(lt, Trx(h), IDX_NATIVE)
  }

  /** The first n pages as they were read, stage by stage. */
  ghost function FirstPages(lt: (SortKey, SortKey) -> bool, h: History, n: nat): seq<Transfer>
    requires n <= |h.trc20| + |h.trx|
  {
    var k := if n <= |h.trc20| then n else |h.trc20|;
    PagedIdx(lt, Usdt(h)[..k], IDX_TOKEN_BASE) + PagedIdx(lt, Trx(h)[..n - k], IDX_NATIVE)
  }

  lemma OnePageMore(lt: (SortKey, SortKey) -> bool, h: History, n: nat)
    requires n < |h.trc20| + |h.trx|
    ensures FirstPages(lt, h, n + 1) == FirstPages(lt, h, n) + PageItems(lt, h, n)
  {
    hide Ranked, RowsOf, PagedIdx;
    if n < |h.trc20| {
      PagedStep(lt, Usdt(h), n, IDX_TOKEN_BASE);
      PagedNone(lt, Trx(h), IDX_NATIVE);
    } else {
      PagedStep(lt, Trx(h), n - |h.trc20|, IDX_NATIVE);
    }
  }

  lemma {:induction false} FlattenPages(lt: (SortKey, SortKey) -> bool, h: History, read: seq<Page<Cursor>>)
    requires |read| <= |h.trc20| + |h.trx| && forall i :: 0 <= i < |read| ==> read[i].items == PageItems(lt, h, i)
    ensures Flatten(read) == FirstPages(lt, h, |read|)
  {
    hide Ranked, PageItems;
    if read != [] {
      var n := |read| - 1;
      FlattenPages(lt, h, read[..n]);
      OnePageMore(lt, h, n);
    }
  }

  lemma PagedStep(lt: (SortKey, SortKey) -> bool, pages: seq<seq<Row>>, k: nat, base: nat)
    requires k < |pages|
    ensures PagedIdx(lt, pages[..k + 1], base) == PagedIdx(lt, pages[..k], base) + Ranked(lt, pages[k], base)
  {
    assert pages[..k + 1][..k] == pages[..k];
  }

  lemma PagedNone(lt: (SortKey, SortKey) -> bool, pages: seq<seq<Row>>, base: nat)
    ensures PagedIdx(lt, pages[..0], base) == []
  {
  }

  /** A walk no ceiling cut off returns the deduplicated pages of both stages. */
  lemma {:induction false} WalkReturnsPages(lt: (SortKey, SortKey) -> bool, server: Server, h: History, maxPages: int, maxItems: int,
                         r: Collected, read: seq<Page<Cursor>>)
    requires ServedBy(server, h) && WalkedBy(Pager(lt, server), None, maxPages, maxItems, Some(r), read)
    requires !r.truncated
    ensures r.items == Dedup(Paged(lt, h))
  {
    hide Dedup, Flatten, PagedIdx, PageItems, ServedBy;
    WalkReadsHistory(lt, server, h, maxPages, maxItems, r, read);
    FlattenPages(lt, h, read);
    assert Usdt(h)[..|h.trc20|] == Usdt(h) && Trx(h)[..|h.trx|] == Trx(h);
  }

  /** No transaction moves both USDT and TRX at the top level. */
  ghost predicate StagesApart(h: History) {
    forall tx :: HasTx(Concat(Usdt(h)), tx) ==> !HasTx(Concat(Trx(h)), tx)
  }

  lemma {:induction false} WholeIsDistinct(lt: (SortKey, SortKey) -> bool, h: History)
    requires StrictOrder(lt) && StagesApart(h)
    ensures Dedup(Whole(lt, h)) == Whole(lt, h)
  {
    hide StrictOrder, Rank, Concat, Dedup;
    var a, b := Concat(Usdt(h)), Concat(Trx(h));
    RankedNeverClashes(lt, a, IDX_TOKEN_BASE);
    RankedNeverClashes(lt, b, IDX_NATIVE);
    var w := Whole(lt, h);
    forall i, j | 0 <= i < j < |w|
      ensures KeyOf(w[i]) != KeyOf(w[j])
    {
      NoPairClashes(lt, a, b, i, j);
    }
    DedupOfDistinct(w);
  }

  lemma NoPairClashes(lt: (SortKey, SortKey) -> bool, a: seq<Row>, b: seq<Row>, i: nat, j: nat)
    requires forall tx :: HasTx(a, tx) ==> !HasTx(b, tx)
    requires forall i, j :: !Clash(Ranked(lt, a, IDX_TOKEN_BASE), i, j)
    requires forall i, j :: !Clash(Ranked(lt, b, IDX_NATIVE), i, j)
    requires i < j < |a| + |b|
    ensures var w := Ranked(lt, a, IDX_TOKEN_BASE) + Ranked(lt, b, IDX_NATIVE); EdgeKeyOf(w[i]) != EdgeKeyOf(w[j])
  {
    hide Rank;
    if j < |a| {
      assert !Clash(Ranked(lt, a, IDX_TOKEN_BASE), i, j);
    } else if i >= |a| {
      assert !Clash(Ranked(lt, b, IDX_NATIVE), i - |a|, j - |a|);
    } else {
      assert HasTx(a, a[i].txHash);
      assert b[j - |a|].txHash != a[i].txHash;
    }
  }

  lemma {:induction false} PagedLength(lt: (SortKey, SortKey) -> bool, pages: seq<seq<Row>>, base: nat)
    ensures |PagedIdx(lt, pages, base)| == |Concat(pages)|
  {
    if pages != [] {
      PagedLength(lt, pages[..|pages| - 1], base);
    }
  }

  /**
    * The history a walk returns is the history the provider holds, transfer for transfer,
    * exactly when no page boundary cuts a transaction in two.
    */
  lemma WalkIsWholeIff(lt: (SortKey, SortKey) -> bool, server: Server, h: History, maxPages: int, maxItems: int,
                       r: Collected, read: seq<Page<Cursor>>)
    requires StrictOrder(lt) && ServedBy(server, h) && StagesApart(h)
    requires WalkedBy(Pager(lt, server), None, maxPages, maxItems, Some(r), read) && !r.truncated
    ensures r.items == Whole(lt, h) <==> NoStraddle(Usdt(h)) && NoStraddle(Trx(h))
  {
    hide StrictOrder, ServedBy, StagesApart, WalkedBy, Dedup, PagedIdx, Concat, NoStraddle, Rank, Usdt, Trx;
    WalkReturnsPages(lt, server, h, maxPages, maxItems, r, read);
    WholeIsDistinct(lt, h);
    PagedIffWhole(lt, Usdt(h), IDX_TOKEN_BASE);
    PagedIffWhole(lt, Trx(h), IDX_NATIVE);
    PagedLength(lt, Usdt(h), IDX_TOKEN_BASE);
    PagedLength(lt, Trx(h), IDX_NATIVE);
    DedupShrinks(Paged(lt, h));
    if r.items == Whole(lt, h) {
      assert Paged(lt, h) == Whole(lt, h);
      assert PagedIdx(lt, Usdt(h), IDX_TOKEN_BASE) == Paged(lt, h)[..|Concat(Usdt(h))|];
      assert PagedIdx(lt, Trx(h), IDX_NATIVE) == Paged(lt, h)[|Concat(Usdt(h))|..];
      assert Ranked(lt, Concat(Usdt(h)), IDX_TOKEN_BASE) == Whole(lt, h)[..|Concat(Usdt(h))|];
      assert Ranked(lt, Concat(Trx(h)), IDX_NATIVE) == Whole(lt, h)[|Concat(Usdt(h))|..];
    }
  }

  /** With room under both ceilings the walk is never cut off. */
  lemma RoomEnough(lt: (SortKey, SortKey) -> bool, server: Server, h: History, maxPages: int, maxItems: int,
                   r: Collected, read: seq<Page<Cursor>>)
    requires ServedBy(server, h) && WalkedBy(Pager(lt, server), None, maxPages, maxItems, Some(r), read)
    requires |h.trc20| + |h.trx| <= maxPages && |Concat(Usdt(h))| + |Concat(Trx(h))| < maxItems
    ensures !r.truncated
  {
    hide Dedup, Flatten, PagedIdx, PageItems, ServedBy, Concat;
    WalkReadsHistory(lt, server, h, maxPages, maxItems, r, read);
    FlattenPages(lt, h, read);
    DedupShrinks(Flatten(read));
    var k := if |read| <= |h.trc20| then |read| else |h.trc20|;
    PagedLength(lt, Usdt(h)[..k], IDX_TOKEN_BASE);
    PagedLength(lt, Trx(h)[..|read| - k], IDX_NATIVE);
    ConcatPrefix(Usdt(h), k);
    ConcatPrefix(Trx(h), |read| - k);
  }

  lemma {:induction false} ConcatPrefix(pages: seq<seq<Row>>, k: nat)
    requires k <= |pages|
    ensures |Concat(pages[..k])| <= |Concat(pages)|
    decreases |pages|
  {
    if k == |pages| {
      assert pages[..k] == pages;
    } else {
      var n := |pages| - 1;
      ConcatPrefix(pages[..n], k);
      assert pages[..n][..k] == pages[..k];
    }
  }
}
