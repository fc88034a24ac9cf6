// packages/shared/src/chainTypes.ts, assignIdx: the idx of a transfer is its rank inside its transaction.
module TransferIdx {
  import opened Pagination
  import opened Sequences
  import opened Transfers
  import opened Wrappers

  /** A transfer before it gets an idx. */
  datatype Row = Row(txHash: string, from: string, to: string, token: string, amount: string, ts: int)

  /** What rows of one transaction are sorted by; the joined text is injective as no part holds the separator. */
  type SortKey = (string, string, string, string)

  function Key(r: Row): SortKey {
    (r.from, r.to, r.amount, r.token)
  }

  function WithIdx(r: Row, idx: nat): Transfer {
    Transfer(r.txHash, idx, r.from, r.to, r.token, r.amount, None, r.ts)
  }

  /** localeCompare(a, b) < 0, taken as a strict total order on the keys. */
  ghost predicate StrictOrder(lt: (SortKey, SortKey) -> bool) {
    && (forall x :: !lt(x, x))
    && (forall x, y :: x == y || lt(x, y) || lt(y, x))
    && (forall x, y, z :: lt(x, y) && lt(y, z) ==> lt(x, z))
  }

  predicate Same(a: Row, b: Row) {
    a.txHash == b.txHash && Key(a) == Key(b)
  }

  predicate Below(lt: (SortKey, SortKey) -> bool, a: Row, b: Row) {
    a.txHash == b.txHash && lt(Key(a), Key(b))
  }

  ghost function CountBelow(lt: (SortKey, SortKey) -> bool, rows: seq<Row>, r: Row): nat {
    if rows == [] then 0
    else CountBelow(lt, rows[..|rows| - 1], r) + (if Below(lt, rows[|rows| - 1], r) then 1 else 0)
  }

  ghost function CountSame(rows: seq<Row>, r: Row): nat {
    if rows == [] then 0 else CountSame(rows[..|rows| - 1], r) + (if Same(rows[|rows| - 1], r) then 1 else 0)
  }

  /** Rows of the same transaction with a smaller key, and earlier ones with the same key. */
  ghost function Rank(lt: (SortKey, SortKey) -> bool, rows: seq<Row>, i: nat): nat
    requires i < |rows|
  {
    CountBelow(lt, rows, rows[i]) + CountSame(rows[..i], rows[i])
  }

  ghost function Ranked(lt: (SortKey, SortKey) -> bool, rows: seq<Row>, base: nat): (r: seq<Transfer>)
    ensures |r| == |rows|
  {
    seq(|rows|, i requires 0 <= i < |rows| => WithIdx(rows[i], base + Rank(lt, rows, i)))
  }

  // ---- the loops ----

  /** Row j comes before row i of the same transaction: smaller key, or the same key and read earlier. */
  predicate Before(lt: (SortKey, SortKey) -> bool, rows: seq<Row>, j: nat, i: nat)
    requires j < |rows| && i < |rows|
  {
    rows[j].txHash == rows[i].txHash && (lt(Key(rows[j]), Key(rows[i])) || (Key(rows[j]) == Key(rows[i]) && j < i))
  }

  /** The positions of the first n rows that belong to a transaction, in order. */
  ghost predicate GroupOf(rows: seq<Row>, n: nat, tx: string, group: seq<nat>)
    requires n <= |rows|
  {
    && (forall k :: 0 <= k < |group| ==> group[k] < n && rows[group[k]].txHash == tx)
    && (forall i: nat :: i < n && rows[i].txHash == tx ==> i in group)
    && (forall k, l :: 0 <= k < l < |group| ==> group[k] < group[l])
  }

  ghost predicate InOrder(lt: (SortKey, SortKey) -> bool, rows: seq<Row>, group: seq<nat>) {
    && (forall k :: 0 <= k < |group| ==> group[k] < |rows|)
    && (forall k, l :: 0 <= k < l < |group| ==> Before(lt, rows, group[k], group[l]))
  }

  function Leq(lt: (SortKey, SortKey) -> bool, rows: seq<Row>): (nat, nat) -> bool {
    (a: nat, b: nat) => a < |rows| && b < |rows| && !lt(Key(rows[b]), Key(rows[a]))
  }

  lemma Last(lt: (SortKey, SortKey) -> bool, rows: seq<Row>, s: seq<nat>, x: nat)
    requires InOrder(lt, rows, s) && x < |rows| && forall k :: 0 <= k < |s| ==> Before(lt, rows, s[k], x)
    ensures InOrder(lt, rows, s + [x])
  {
  }

  /** A stable sort by key alone puts rows in Before order: the later of two equal keys was inserted later. */
  lemma {:induction false} InsertInOrder(lt: (SortKey, SortKey) -> bool, rows: seq<Row>, s: seq<nat>, x: nat)
    requires StrictOrder(lt) && InOrder(lt, rows, s) && x < |rows|
    requires forall k :: 0 <= k < |s| ==> s[k] < x && rows[s[k]].txHash == rows[x].txHash
    ensures InOrder(lt, rows, Insert(s, x, Leq(lt, rows)))
    ensures multiset(Insert(s, x, Leq(lt, rows))) == multiset(s) + multiset{x}
  {
    InsertMultiset(s, x, Leq(lt, rows));
    if s != [] && !Leq(lt, rows)(s[|s| - 1], x) {
      var init, last := s[..|s| - 1], s[|s| - 1];
      InsertInOrder(lt, rows, init, x);
      var r := Insert(init, x, Leq(lt, rows));
      forall k | 0 <= k < |r|
        ensures r[k] < |rows| && Before(lt, rows, r[k], last)
      {
        assert r[k] in multiset(r);
        assert r[k] in init || r[k] == x;
      }
      Last(lt, rows, r, last);
    }
  }

  lemma {:induction false} SortInOrder(lt: (SortKey, SortKey) -> bool, rows: seq<Row>, n: nat, tx: string, s: seq<nat>)
    requires StrictOrder(lt) && n <= |rows|
    requires forall k :: 0 <= k < |s| ==> s[k] < n && rows[s[k]].txHash == tx
    requires forall k, l :: 0 <= k < l < |s| ==> s[k] < s[l]
    ensures InOrder(lt, rows, Sort(s, Leq(lt, rows)))
    ensures multiset(Sort(s, Leq(lt, rows))) == multiset(s)
  {
    SortMultiset(s, Leq(lt, rows));
    if s != [] {
      var init, x := s[..|s| - 1], s[|s| - 1];
      SortInOrder(lt, rows, n, tx, init);
      var r := Sort(init, Leq(lt, rows));
      forall k | 0 <= k < |r|
        ensures r[k] < x && rows[r[k]].txHash == rows[x].txHash
      {
        assert r[k] in multiset(r);
        assert r[k] in init;
      }
      InsertInOrder(lt, rows, r, x);
    }
  }

  lemma {:induction false} CountBelowIsSize(lt: (SortKey, SortKey) -> bool, rows: seq<Row>, r: Row)
    ensures CountBelow(lt, rows, r) == |set j | 0 <= j < |rows| && Below(lt, rows[j], r)|
  {
    if rows != [] {
      var k := |rows| - 1;
      CountBelowIsSize(lt, rows[..k], r);
      var a := set j | 0 <= j < |rows| && Below(lt, rows[j], r);
      var b := set j | 0 <= j < |rows[..k]| && Below(lt, rows[..k][j], r);
      assert a == b + if Below(lt, rows[k], r) then {k} else {};
    }
  }

  lemma {:induction false} CountSameIsSize(rows: seq<Row>, r: Row)
    ensures CountSame(rows, r) == |set j | 0 <= j < |rows| && Same(rows[j], r)|
  {
    if rows != [] {
      var k := |rows| - 1;
      CountSameIsSize(rows[..k], r);
      var a := set j | 0 <= j < |rows| && Same(rows[j], r);
      var b := set j | 0 <= j < |rows[..k]| && Same(rows[..k][j], r);
      assert a == b + if Same(rows[k], r) then {k} else {};
    }
  }

  ghost function Elements(s: seq<nat>): set<nat> {
    set k | 0 <= k < |s| :: s[k]
  }

  lemma {:induction false} DistinctSize(s: seq<nat>)
    requires forall k, l :: 0 <= k < l < |s| ==> s[k] != s[l]
    ensures |Elements(s)| == |s|
  {
    if s != [] {
      var k := |s| - 1;
      DistinctSize(s[..k]);
      assert Elements(s) == Elements(s[..k]) + {s[k]} by {
        assert s == s[..k] + [s[k]];
      }
    }
  }

  lemma RankIsSize(lt: (SortKey, SortKey) -> bool, rows: seq<Row>, i: nat)
    requires StrictOrder(lt) && i < |rows|
    ensures Rank(lt, rows, i) == |set j: nat | j < |rows| && Before(lt, rows, j, i)|
  {
    CountBelowIsSize(lt, rows, rows[i]);
    CountSameIsSize(rows[..i], rows[i]);
    var below := set j | 0 <= j < |rows| && Below(lt, rows[j], rows[i]);
    var same := set j | 0 <= j < |rows[..i]| && Same(rows[..i][j], rows[i]);
    assert (set j: nat | j < |rows| && Before(lt, rows, j, i)) == below + same;
    assert below !! same;
  }

  /** The place a row takes in its sorted group is its rank. */
  lemma PlaceIsRank(lt: (SortKey, SortKey) -> bool, rows: seq<Row>, sorted: seq<nat>, k: nat)
    requires StrictOrder(lt) && InOrder(lt, rows, sorted) && k < |sorted|
    requires forall i: nat :: i < |rows| && rows[i].txHash == rows[sorted[k]].txHash ==> i in sorted
    ensures Rank(lt, rows, sorted[k]) == k
  {
    hide Rank, Before, StrictOrder;
    RankIsSize(lt, rows, sorted[k]);
    PrefixIsBefore(lt, rows, sorted, k, set j: nat | j < |rows| && Before(lt, rows, j, sorted[k]));
    PlacesDistinct(lt, rows, sorted);
    DistinctSize(sorted[..k]);
  }

  lemma PlacesDistinct(lt: (SortKey, SortKey) -> bool, rows: seq<Row>, sorted: seq<nat>)
    requires StrictOrder(lt) && InOrder(lt, rows, sorted)
    ensures forall k, l :: 0 <= k < l < |sorted| ==> sorted[k] != sorted[l]
  {
    forall k, l | 0 <= k < l < |sorted|
      ensures sorted[k] != sorted[l]
    {
      assert Before(lt, rows, sorted[k], sorted[l]);
    }
  }

  lemma PrefixIsBefore(lt: (SortKey, SortKey) -> bool, rows: seq<Row>, sorted: seq<nat>, k: nat, before: set<nat>)
    requires StrictOrder(lt) && InOrder(lt, rows, sorted) && k < |sorted|
    requires forall i: nat :: i < |rows| && rows[i].txHash == rows[sorted[k]].txHash ==> i in sorted
    requires before == set j: nat | j < |rows| && Before(lt, rows, j, sorted[k])
    ensures before == Elements(sorted[..k])
  {
    forall j | j in before
      ensures j in Elements(sorted[..k])
    {
      var l :| 0 <= l < |sorted| && sorted[l] == j;
      assert l < k && sorted[..k][l] == j;
    }
    forall j | j in Elements(sorted[..k])
      ensures j in before
    {
      var l :| 0 <= l < k && sorted[l] == j;
      assert Before(lt, rows, sorted[l], sorted[k]);
    }
  }

  ghost predicate Grouped(rows: seq<Row>, n: nat, byTx: map<string, seq<nat>>)
    requires n <= |rows|
  {
    && (forall tx :: tx in byTx ==> GroupOf(rows, n, tx, byTx[tx]))
    && (forall i: nat :: i < n ==> rows[i].txHash in byTx)
  }

  lemma GroupGrows(rows: seq<Row>, n: nat, tx: string, group: seq<nat>)
    requires n < |rows| && GroupOf(rows, n, tx, group)
    ensures GroupOf(rows, n + 1, tx, if tx == rows[n].txHash then group + [n] else group)
  {
    if tx == rows[n].txHash {
      var more := group + [n];
      assert more[|group|] == n;
      forall i: nat | i < n + 1 && rows[i].txHash == tx
        ensures i in more
      {
        assert i < n ==> i in group;
      }
    }
  }

  lemma NoRowsYet(rows: seq<Row>, n: nat, byTx: map<string, seq<nat>>)
    requires n < |rows| && Grouped(rows, n, byTx)
    ensures rows[n].txHash !in byTx ==> GroupOf(rows, n, rows[n].txHash, [])
  {
  }

  lemma GroupsGrow(rows: seq<Row>, n: nat, byTx: map<string, seq<nat>>)
    requires n < |rows| && Grouped(rows, n, byTx)
    ensures var tx := rows[n].txHash;
      Grouped(rows, n + 1, byTx[tx := (if tx in byTx then byTx[tx] else []) + [n]])
  {
    hide GroupOf;
    var group := if rows[n].txHash in byTx then byTx[rows[n].txHash] else [];
    if group == [] {
      NoRowsYet(rows, n, byTx);
    }
    GroupGrows(rows, n, rows[n].txHash, group);
    forall tx | tx in byTx
      ensures GroupOf(rows, n + 1, tx, if tx == rows[n].txHash then byTx[tx] + [n] else byTx[tx])
    {
      GroupGrows(rows, n, tx, byTx[tx]);
    }
  }

  /** idxOf is right wherever it is set, and set for all rows except those of some transactions. */
  ghost predicate Placed(lt: (SortKey, SortKey) -> bool, rows: seq<Row>, base: nat, idxOf: map<nat, nat>, without: set<string>) {
    && (forall i: nat :: i < |rows| && rows[i].txHash !in without ==> i in idxOf)
    && (forall i :: i in idxOf ==> i < |rows| && idxOf[i] == base + Rank(lt, rows, i))
  }

  method GroupByTx(rows: seq<Row>) returns (byTx: map<string, seq<nat>>)
    ensures Grouped(rows, |rows|, byTx)
  {
    byTx := map[];
    for n := 0 to |rows|
      invariant Grouped(rows, n, byTx)
    {
      var tx := rows[n].txHash;
      GroupsGrow(rows, n, byTx);
      byTx := byTx[tx := (if tx in byTx then byTx[tx] else []) + [n]];
    }
  }

  /** Positions stand for the identity of the row objects, which is what the source's two maps are keyed by. */
  method AssignIdx(lt: (SortKey, SortKey) -> bool, rows: seq<Row>, base: nat) returns (out: seq<Transfer>)
    requires StrictOrder(lt)
    ensures out == Ranked(lt, rows, base)
  {
    hide StrictOrder, Rank, Sort, GroupOf, Placed, Grouped;
    var byTx := GroupByTx(rows);
    var idxOf: map<nat, nat> := map[];
    var groups := byTx.Keys;
    NonePlaced(lt, rows, base, byTx);
    while groups != {}
      invariant groups <= byTx.Keys
      invariant Placed(lt, rows, base, idxOf, groups)
      decreases |groups|
    {
      var tx :| tx in groups;
      ghost var left := groups;
      groups := groups - {tx};
      assert left == groups + {tx};
      idxOf := PlaceGroup(lt, rows, base, tx, byTx[tx], idxOf, groups);
    }
    AllPlaced(lt, rows, base, idxOf);
    out := seq(|rows|, i requires 0 <= i < |rows| && i in idxOf => WithIdx(rows[i], idxOf[i]));
  }

  lemma NonePlaced(lt: (SortKey, SortKey) -> bool, rows: seq<Row>, base: nat, byTx: map<string, seq<nat>>)
    requires Grouped(rows, |rows|, byTx)
    ensures Placed(lt, rows, base, map[], byTx.Keys)
    ensures forall tx :: tx in byTx ==> GroupOf(rows, |rows|, tx, byTx[tx])
  {
  }

  lemma AllPlaced(lt: (SortKey, SortKey) -> bool, rows: seq<Row>, base: nat, idxOf: map<nat, nat>)
    requires Placed(lt, rows, base, idxOf, {})
    ensures forall i: nat :: i < |rows| ==> i in idxOf && idxOf[i] == base + Rank(lt, rows, i)
  {
  }

  method PlaceGroup(lt: (SortKey, SortKey) -> bool, rows: seq<Row>, base: nat, tx: string, group: seq<nat>,
                    idxOf0: map<nat, nat>, ghost groups: set<string>)
    returns (idxOf: map<nat, nat>)
    requires StrictOrder(lt) && GroupOf(rows, |rows|, tx, group) && Placed(lt, rows, base, idxOf0, groups + {tx})
    ensures Placed(lt, rows, base, idxOf, groups)
  {
    hide StrictOrder, Rank, Sort, GroupOf;
    idxOf := idxOf0;
    var sorted := Sort(group, Leq(lt, rows));
    GroupSorted(lt, rows, tx, group, sorted);
    for rank := 0 to |sorted|
      invariant Placed(lt, rows, base, idxOf, groups + {tx})
      invariant forall k :: 0 <= k < rank ==> sorted[k] in idxOf
    {
      idxOf := idxOf[sorted[rank] := base + rank];
    }
    forall i: nat | i < |rows| && rows[i].txHash !in groups
      ensures i in idxOf
    {
      if rows[i].txHash == tx {
        assert i in sorted;
      }
    }
  }

  lemma GroupSorted(lt: (SortKey, SortKey) -> bool, rows: seq<Row>, tx: string, group: seq<nat>, sorted: seq<nat>)
    requires StrictOrder(lt) && GroupOf(rows, |rows|, tx, group) && sorted == Sort(group, Leq(lt, rows))
    ensures forall i: nat :: i < |rows| && rows[i].txHash == tx ==> i in sorted
    ensures forall k :: 0 <= k < |sorted| ==> sorted[k] < |rows| && Rank(lt, rows, sorted[k]) == k
  {
    hide StrictOrder, Rank, Sort;
    SortInOrder(lt, rows, |rows|, tx, group);
    forall i: nat
      ensures i in group <==> i in sorted
    {
      assert i in multiset(group) <==> i in multiset(sorted);
    }
    forall k | 0 <= k < |sorted|
      ensures sorted[k] < |rows| && Rank(lt, rows, sorted[k]) == k
    {
      assert sorted[k] in sorted;
      PlaceIsRank(lt, rows, sorted, k);
    }
  }

  // ---- what the ranks are good for ----

  lemma {:induction false} CountSameMono(rows: seq<Row>, r: Row, i: nat, j: nat)
    requires i <= j <= |rows|
    ensures CountSame(rows[..i], r) <= CountSame(rows[..j], r)
    decreases j
  {
    if i < j {
      CountSameMono(rows, r, i, j - 1);
      assert rows[..j][..j - 1] == rows[..j - 1];
    }
  }

  lemma {:induction false} CountsAgree(lt: (SortKey, SortKey) -> bool, rows: seq<Row>, a: Row, b: Row)
    requires Same(a, b)
    ensures CountBelow(lt, rows, a) == CountBelow(lt, rows, b) && CountSame(rows, a) == CountSame(rows, b)
  {
    if rows != [] {
      CountsAgree(lt, rows[..|rows| - 1], a, b);
    }
  }

  /** A row with a smaller key has every row with that key below the other. */
  lemma {:induction false} BelowCounts(lt: (SortKey, SortKey) -> bool, rows: seq<Row>, a: Row, b: Row)
    requires StrictOrder(lt) && Below(lt, a, b)
    ensures CountBelow(lt, rows, a) + CountSame(rows, a) <= CountBelow(lt, rows, b)
  {
    if rows != [] {
      BelowCounts(lt, rows[..|rows| - 1], a, b);
    }
  }

  /** How a row's rank lies in the stretch its key owns. */
  lemma {:induction false} RankInStretch(lt: (SortKey, SortKey) -> bool, rows: seq<Row>, i: nat)
    requires i < |rows|
    ensures CountBelow(lt, rows, rows[i]) <= Rank(lt, rows, i) < CountBelow(lt, rows, rows[i]) + CountSame(rows, rows[i])
  {
    CountSameMono(rows, rows[i], i + 1, |rows|);
    assert rows[..i + 1][..i] == rows[..i] && rows[..|rows|] == rows;
  }

  /** (txHash, idx) names one row. */
  lemma IdxDistinct(lt: (SortKey, SortKey) -> bool, rows: seq<Row>, i: nat, j: nat)
    requires StrictOrder(lt) && i < j < |rows| && rows[i].txHash == rows[j].txHash
    ensures Rank(lt, rows, i) != Rank(lt, rows, j)
  {
    RankInStretch(lt, rows, i);
    RankInStretch(lt, rows, j);
    if Below(lt, rows[i], rows[j]) {
      BelowCounts(lt, rows, rows[i], rows[j]);
    } else if Below(lt, rows[j], rows[i]) {
      BelowCounts(lt, rows, rows[j], rows[i]);
    } else {
      assert Same(rows[i], rows[j]);
      CountsAgree(lt, rows, rows[i], rows[j]);
      CountsAgree(lt, rows[..i], rows[i], rows[j]);
      CountSameMono(rows, rows[j], i + 1, j);
      assert rows[..i + 1][..i] == rows[..i];
    }
  }

  /** Some row like r has exactly k rows like it before it. */
  lemma {:induction false} SameAt(rows: seq<Row>, r: Row, k: nat) returns (i: nat)
    requires k < CountSame(rows, r)
    ensures i < |rows| && Same(rows[i], r) && CountSame(rows[..i], r) == k
  {
    var n := |rows| - 1;
    if k < CountSame(rows[..n], r) {
      i := SameAt(rows[..n], r, k);
      assert rows[..n][..i] == rows[..i];
    } else {
      i := n;
    }
  }

  /** What a reader of the history sees of a transfer apart from its timestamp. */
  ghost predicate Stamped(lt: (SortKey, SortKey) -> bool, rows: seq<Row>, tx: string, key: SortKey, rank: nat) {
    exists i: nat :: i < |rows| && rows[i].txHash == tx && Key(rows[i]) == key && Rank(lt, rows, i) == rank
  }

  /** Whether a key gets a rank depends only on how many rows have which key. */
  lemma StampedExactly(lt: (SortKey, SortKey) -> bool, rows: seq<Row>, r: Row, rank: nat)
    ensures Stamped(lt, rows, r.txHash, Key(r), rank) <==>
      CountBelow(lt, rows, r) <= rank < CountBelow(lt, rows, r) + CountSame(rows, r)
  {
    if i: nat :| i < |rows| && rows[i].txHash == r.txHash && Key(rows[i]) == Key(r) && Rank(lt, rows, i) == rank {
      RankInStretch(lt, rows, i);
      CountsAgree(lt, rows, rows[i], r);
    }
    if CountBelow(lt, rows, r) <= rank < CountBelow(lt, rows, r) + CountSame(rows, r) {
      var i := SameAt(rows, r, rank - CountBelow(lt, rows, r));
      CountsAgree(lt, rows, rows[i], r);
      CountsAgree(lt, rows[..i], rows[i], r);
    }
  }

  lemma {:induction false} CountsConcat(lt: (SortKey, SortKey) -> bool, a: seq<Row>, b: seq<Row>, r: Row)
    ensures CountBelow(lt, a + b, r) == CountBelow(lt, a, r) + CountBelow(lt, b, r)
    ensures CountSame(a + b, r) == CountSame(a, r) + CountSame(b, r)
  {
    if b == [] {
      assert a + b == a;
    } else {
      CountsConcat(lt, a, b[..|b| - 1], r);
      assert (a + b)[..|a + b| - 1] == a + b[..|b| - 1];
    }
  }

  lemma CountsRemove(lt: (SortKey, SortKey) -> bool, rows: seq<Row>, k: nat, r: Row)
    requires k < |rows|
    ensures var rest := rows[..k] + rows[k + 1..];
      && CountBelow(lt, rows, r) == CountBelow(lt, rest, r) + (if Below(lt, rows[k], r) then 1 else 0)
      && CountSame(rows, r) == CountSame(rest, r) + (if Same(rows[k], r) then 1 else 0)
  {
    CountsConcat(lt, rows[..k], rows[k + 1..], r);
    CountsConcat(lt, rows[..k + 1], rows[k + 1..], r);
    assert rows == rows[..k + 1] + rows[k + 1..];
    assert rows[..k + 1][..k] == rows[..k];
  }

  lemma SameBagLess(a: seq<Row>, b: seq<Row>) returns (k: nat)
    requires multiset(a) == multiset(b) && a != []
    ensures k < |b| && b[k] == a[|a| - 1] && multiset(a[..|a| - 1]) == multiset(b[..k] + b[k + 1..])
  {
    var n := |a| - 1;
    assert a[n] in multiset(b);
    k :| 0 <= k < |b| && b[k] == a[n];
    assert a == a[..n] + [a[n]];
    assert b == b[..k] + [b[k]] + b[k + 1..];
    assert multiset(a) == multiset(a[..n]) + multiset{a[n]};
    assert multiset(b) == multiset(b[..k] + b[k + 1..]) + multiset{a[n]};
    assert multiset(a[..n]) == multiset(a) - multiset{a[n]};
  }

  lemma {:induction false} CountsOfBag(lt: (SortKey, SortKey) -> bool, a: seq<Row>, b: seq<Row>, r: Row)
    requires multiset(a) == multiset(b)
    ensures CountBelow(lt, a, r) == CountBelow(lt, b, r) && CountSame(a, r) == CountSame(b, r)
    decreases |a|
  {
    if a != [] {
      var n := |a| - 1;
      var k := SameBagLess(a, b);
      CountsOfBag(lt, a[..n], b[..k] + b[k + 1..], r);
      CountsRemove(lt, b, k, r);
    } else {
      assert |b| == |multiset(b)| == |multiset(a)| == 0;
    }
  }

  /** Re-reading the same rows in any order yields the same (txHash, idx) for the same transfers. */
  lemma IdxIgnoresOrder(lt: (SortKey, SortKey) -> bool, a: seq<Row>, b: seq<Row>, tx: string, key: SortKey, rank: nat)
    requires multiset(a) == multiset(b)
    ensures Stamped(lt, a, tx, key, rank) <==> Stamped(lt, b, tx, key, rank)
  {
    var r := Row(tx, key.0, key.1, key.3, key.2, 0);
    StampedExactly(lt, a, r, rank);
    StampedExactly(lt, b, r, rank);
    CountsOfBag(lt, a, b, r);
  }
}
