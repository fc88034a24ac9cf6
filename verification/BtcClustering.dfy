// apps/api/src/attribution/heuristics/btcClustering.ts: common-input clustering by union-find.
module BtcClustering {
  datatype Output = Output(addr: string, value: int)

  datatype BtcTx = BtcTx(txid: string, inputs: seq<string>, outputs: seq<Output>)

  // ---- the forest ----

  /** At x: rep[x] is the root above x, and depth falls along the parent link. */
  ghost predicate At(parent: map<string, string>, rep: map<string, string>, depth: map<string, nat>, x: string)
    requires x in parent && rep.Keys == parent.Keys && depth.Keys == parent.Keys
  {
    && parent[x] in parent && rep[x] in parent
    && parent[rep[x]] == rep[x] && rep[rep[x]] == rep[x]
    && depth[rep[x]] <= depth[x]
    && (parent[x] == x ==> rep[x] == x)
    && (parent[x] != x ==> depth[parent[x]] < depth[x] && rep[parent[x]] == rep[x] && depth[rep[x]] <= depth[parent[x]])
  }

  /** parent is a forest with roots rep and depths depth. */
  ghost predicate Forest(parent: map<string, string>, rep: map<string, string>, depth: map<string, nat>) {
    && rep.Keys == parent.Keys && depth.Keys == parent.Keys
    && forall x {:trigger At(parent, rep, depth, x)} :: x in parent ==> At(parent, rep, depth, x)
  }

  /** The partition: an address the structure has never seen is alone. */
  ghost function ClassOf(rep: map<string, string>, x: string): string {
    if x in rep then rep[x] else x
  }

  /** x's parent chain ends at rep[x] and nowhere else: rep is a function of parent. */
  lemma {:induction false} RootsAgree(parent: map<string, string>, rep: map<string, string>, depth: map<string, nat>,
                                      rep': map<string, string>, depth': map<string, nat>, x: string)
    requires Forest(parent, rep, depth) && Forest(parent, rep', depth') && x in parent
    ensures rep[x] == rep'[x]
    decreases depth[x]
  {
    assert At(parent, rep, depth, x) && At(parent, rep', depth', x);
    if parent[x] != x {
      RootsAgree(parent, rep, depth, rep', depth', parent[x]);
    }
  }

  lemma SingletonKeepsForest(parent: map<string, string>, rep: map<string, string>, depth: map<string, nat>, x: string)
    requires Forest(parent, rep, depth) && x !in parent
    ensures Forest(parent[x := x], rep[x := x], depth[x := 0])
  {
    var p', r', d' := parent[x := x], rep[x := x], depth[x := 0];
    forall y | y in p'
      ensures At(p', r', d', y)
    {
      assert y != x ==> At(parent, rep, depth, y);
    }
  }

  lemma CompressKeepsForest(parent: map<string, string>, rep: map<string, string>, depth: map<string, nat>, x: string)
    requires Forest(parent, rep, depth) && x in parent && parent[x] != x
    ensures Forest(parent[x := rep[x]], rep, depth)
  {
    assert At(parent, rep, depth, x);
    var p' := parent[x := rep[x]];
    forall y | y in p'
      ensures At(p', rep, depth, y)
    {
      assert At(parent, rep, depth, y);
    }
  }

  ghost function Relabelled(rep: map<string, string>, ra: string, rb: string): map<string, string> {
    map y | y in rep :: if rep[y] == ra then rb else rep[y]
  }

  ghost function Deepened(rep: map<string, string>, depth: map<string, nat>, ra: string, rb: string): map<string, nat>
    requires rep.Keys == depth.Keys && rb in depth
  {
    map y | y in rep :: if rep[y] == ra then depth[y] + depth[rb] + 1 else depth[y]
  }

  lemma AttachKeepsForest(parent: map<string, string>, rep: map<string, string>, depth: map<string, nat>, ra: string, rb: string)
    requires Forest(parent, rep, depth) && ra in parent && rb in parent && ra != rb
    requires parent[ra] == ra && parent[rb] == rb
    ensures Forest(parent[ra := rb], Relabelled(rep, ra, rb), Deepened(rep, depth, ra, rb))
  {
    var p', r', d' := parent[ra := rb], Relabelled(rep, ra, rb), Deepened(rep, depth, ra, rb);
    assert At(parent, rep, depth, ra) && At(parent, rep, depth, rb);
    forall y | y in p'
      ensures At(p', r', d', y)
    {
      assert At(parent, rep, depth, y);
    }
  }

  class UnionFind {
    var parent: map<string, string>
    ghost var rep: map<string, string>
    ghost var depth: map<string, nat>

    ghost predicate Valid()
      reads this
    {
      Forest(parent, rep, depth)
    }

    constructor ()
      ensures Valid() && rep == map[]
    {
      parent, rep, depth := map[], map[], map[];
    }

    /** The root above x. Path compression rewrites parents but moves no address to another class. */
    method Find(x: string) returns (r: string)
      requires Valid()
      modifies this
      ensures Valid()
      ensures rep == Seen(old(rep), x) && r == rep[x]
      ensures x in old(parent) ==> depth == old(depth)
      ensures x in parent && parent.Keys == old(parent.Keys) + {x}
      decreases if x in parent then depth[x] + 1 else 0
    {
      if x !in parent {
        SingletonKeepsForest(parent, rep, depth, x);
        parent, rep, depth := parent[x := x], rep[x := x], depth[x := 0];
        return x;
      }
      assert At(parent, rep, depth, x);
      var p := parent[x];
      if p == x {
        return x;
      }
      var root := Find(p);
      assert At(parent, rep, depth, x);
      CompressKeepsForest(parent, rep, depth, x);
      parent := parent[x := root];
      return root;
    }

    method Union(a: string, b: string)
      requires Valid()
      modifies this
      ensures Valid() && rep.Keys == old(rep.Keys) + {a, b}
      ensures var was := old(rep);
        forall x, y :: ClassOf(rep, x) == ClassOf(rep, y) <==> JoinedBy(was, a, b, x, y)
    {
      hide Forest, JoinedBy;
      var ra := Find(a);
      ghost var mid := rep;
      var rb := Find(b);
      RootsOf(parent, rep, depth, a, b);
      UnionJoins(old(rep), mid, rep, a, b);
      if ra != rb {
        AttachKeepsForest(parent, rep, depth, ra, rb);
        parent, rep, depth := parent[ra := rb], Relabelled(rep, ra, rb), Deepened(rep, depth, ra, rb);
      }
    }
  }

  ghost function Seen(rep: map<string, string>, x: string): map<string, string> {
    if x in rep then rep else rep[x := x]
  }

  lemma RootsOf(parent: map<string, string>, rep: map<string, string>, depth: map<string, nat>, a: string, b: string)
    requires Forest(parent, rep, depth) && a in parent && b in parent
    ensures Closed(rep) && rep.Keys == parent.Keys == depth.Keys
    ensures rep[a] in parent && rep[b] in parent && parent[rep[a]] == rep[a] && parent[rep[b]] == rep[b]
  {
    assert At(parent, rep, depth, a) && At(parent, rep, depth, b);
    RepsClosed(parent, rep, depth);
  }

  ghost predicate Closed(rep: map<string, string>) {
    forall x {:trigger ClassOf(rep, x)} :: x in rep ==> ClassOf(rep, x) in rep
  }

  lemma RepsClosed(parent: map<string, string>, rep: map<string, string>, depth: map<string, nat>)
    requires Forest(parent, rep, depth)
    ensures Closed(rep)
  {
    forall x | x in rep
      ensures ClassOf(rep, x) in rep
    {
      assert At(parent, rep, depth, x);
    }
  }

  /** x and y are in one class once the classes of a and b are merged. */
  ghost predicate JoinedBy(rep: map<string, string>, a: string, b: string, x: string, y: string) {
    var A, B := ClassOf(rep, a), ClassOf(rep, b);
    var X, Y := ClassOf(rep, x), ClassOf(rep, y);
    X == Y || (X == A && Y == B) || (X == B && Y == A)
  }

  lemma UnionJoins(was: map<string, string>, mid: map<string, string>, found: map<string, string>, a: string, b: string)
    requires mid == Seen(was, a) && found == Seen(mid, b) && Closed(found)
    ensures var now := if found[a] == found[b] then found else Relabelled(found, found[a], found[b]);
      now.Keys == was.Keys + {a, b} &&
      forall x, y :: ClassOf(now, x) == ClassOf(now, y) <==> JoinedBy(was, a, b, x, y)
  {
    var now := if found[a] == found[b] then found else Relabelled(found, found[a], found[b]);
    assert forall x :: ClassOf(found, x) == ClassOf(was, x);
    forall x, y
      ensures ClassOf(now, x) == ClassOf(now, y) <==> JoinedBy(was, a, b, x, y)
    {
      assert x in found ==> ClassOf(found, x) == found[x];
      assert y in found ==> ClassOf(found, y) == found[y];
      assert ClassOf(found, a) == found[a] && ClassOf(found, b) == found[b];
    }
  }

  // ---- which transactions cluster ----

  const MIN_EQUAL := 3

  ghost function OutputValues(tx: BtcTx): multiset<int> {
    multiset(seq(|tx.outputs|, i requires 0 <= i < |tx.outputs| => tx.outputs[i].value))
  }

  /** Some output value occurs at least minEqualOutputs times. */
  ghost predicate CoinJoinLike(tx: BtcTx, minEqualOutputs: int) {
    exists v :: v in OutputValues(tx) && OutputValues(tx)[v] >= minEqualOutputs
  }

  ghost predicate Accepted(tx: BtcTx) {
    |tx.inputs| >= 2 && !CoinJoinLike(tx, MIN_EQUAL)
  }

  /** Three outputs of a transaction have one value. */
  ghost predicate ThreeAlike(tx: BtcTx) {
    exists i: nat, j: nat, k: nat :: AlikeAt(tx, i, j, k)
  }

  predicate AlikeAt(tx: BtcTx, i: nat, j: nat, k: nat) {
    i < j < k < |tx.outputs| && tx.outputs[i].value == tx.outputs[j].value == tx.outputs[k].value
  }

  /** Positions at which a value occurs, as many as asked for. */
  lemma {:induction false} PlacesOf(s: seq<int>, v: int, n: nat) returns (at: seq<nat>)
    requires multiset(s)[v] >= n
    ensures |at| == n && (forall i, j :: 0 <= i < j < n ==> at[i] < at[j]) && forall i :: 0 <= i < n ==> at[i] < |s| && s[at[i]] == v
  {
    at := [];
    if n > 0 {
      var k: nat := |s| - 1;
      assert s == s[..k] + [s[k]];
      if s[k] == v {
        at := PlacesOf(s[..k], v, n - 1);
        at := at + [k];
      } else {
        at := PlacesOf(s[..k], v, n);
      }
    }
  }

  lemma ThricePlaced(s: seq<int>, i: nat, j: nat, k: nat)
    requires i < j < k < |s| && s[i] == s[j] == s[k]
    ensures multiset(s)[s[i]] >= 3
  {
    var v := s[i];
    var a, b, c := s[..j], s[j..k], s[k..];
    assert s == a + (b + c);
    assert a[i] == v && b[0] == v && c[0] == v;
    assert v in multiset(a) && v in multiset(b) && v in multiset(c);
    assert multiset(s)[v] == multiset(a)[v] + multiset(b)[v] + multiset(c)[v];
  }

  lemma CoinJoinIsAlike(tx: BtcTx)
    requires CoinJoinLike(tx, MIN_EQUAL)
    ensures ThreeAlike(tx)
  {
    var values := seq(|tx.outputs|, i requires 0 <= i < |tx.outputs| => tx.outputs[i].value);
    var v :| v in OutputValues(tx) && OutputValues(tx)[v] >= MIN_EQUAL;
    hide OutputValues;
    var at := PlacesOf(values, v, 3);
    assert at[0] < at[1] && at[1] < at[2];
    assert AlikeAt(tx, at[0], at[1], at[2]);
  }

  lemma AlikeIsCoinJoin(tx: BtcTx)
    requires ThreeAlike(tx)
    ensures CoinJoinLike(tx, MIN_EQUAL)
  {
    var values := seq(|tx.outputs|, i requires 0 <= i < |tx.outputs| => tx.outputs[i].value);
    var i: nat, j: nat, k: nat :| AlikeAt(tx, i, j, k);
    ThricePlaced(values, i, j, k);
    assert OutputValues(tx) == multiset(values);
    assert OutputValues(tx)[values[i]] >= MIN_EQUAL;
  }

  /** A transaction clusters its inputs exactly when it has two of them at least and no three outputs alike. */
  lemma AcceptedIff(tx: BtcTx)
    ensures Accepted(tx) <==> |tx.inputs| >= 2 && !ThreeAlike(tx)
  {
    hide CoinJoinLike, ThreeAlike;
    if CoinJoinLike(tx, MIN_EQUAL) {
      CoinJoinIsAlike(tx);
    }
    if ThreeAlike(tx) {
      AlikeIsCoinJoin(tx);
    }
  }

  method IsCoinJoinLike(tx: BtcTx, minEqualOutputs: int) returns (r: bool)
    ensures r <==> CoinJoinLike(tx, minEqualOutputs)
  {
    ghost var values := seq(|tx.outputs|, i requires 0 <= i < |tx.outputs| => tx.outputs[i].value);
    if |tx.outputs| < minEqualOutputs {
      assert forall v :: OutputValues(tx)[v] <= |OutputValues(tx)|;
      return false;
    }
    // the greatest of no counts is below every minimum
    if |tx.outputs| == 0 {
      return false;
    }
    var counts: map<int, int> := map[];
    var max := 0;
    ghost var best := 0;
    for n := 0 to |tx.outputs|
      invariant forall v :: (v in counts <==> v in multiset(values[..n])) && (v in counts ==> counts[v] == multiset(values[..n])[v])
      invariant if n == 0 then max == 0 else best in counts && counts[best] == max
      invariant forall v :: v in counts ==> counts[v] <= max
    {
      var v := tx.outputs[n].value;
      assert values[..n + 1] == values[..n] + [v];
      var count := (if v in counts then counts[v] else 0) + 1;
      counts := counts[v := count];
      if count > max {
        max := count;
        best := v;
      }
    }
    assert values[..|values|] == values;
    return max >= minEqualOutputs;
  }

  // ---- links ----

  /** x and y were spent together by an accepted transaction. */
  ghost predicate SpentTogether(txs: seq<BtcTx>, x: string, y: string) {
    exists tx :: tx in txs && Accepted(tx) && x in tx.inputs && y in tx.inputs
  }

  ghost predicate Chain(txs: seq<BtcTx>, p: seq<string>) {
    |p| > 0 && forall i :: 0 < i < |p| ==> SpentTogether(txs, p[i - 1], p[i])
  }

  /** A chain of accepted transactions leads from x to y. */
  ghost predicate Linked(txs: seq<BtcTx>, x: string, y: string) {
    exists p :: Chain(txs, p) && p[0] == x && p[|p| - 1] == y
  }

  lemma LinkedSelf(txs: seq<BtcTx>, x: string)
    ensures Linked(txs, x, x)
  {
    assert Chain(txs, [x]) && [x][0] == x;
  }

  lemma LinkedOnce(txs: seq<BtcTx>, x: string, y: string)
    requires SpentTogether(txs, x, y)
    ensures Linked(txs, x, y) && Linked(txs, y, x)
  {
    assert SpentTogether(txs, y, x);
    assert Chain(txs, [x, y]) && [x, y][0] == x && [x, y][1] == y;
    assert Chain(txs, [y, x]) && [y, x][0] == y && [y, x][1] == x;
  }

  lemma LinkedThrough(txs: seq<BtcTx>, x: string, y: string, z: string)
    requires Linked(txs, x, y) && Linked(txs, y, z)
    ensures Linked(txs, x, z)
  {
    var p :| Chain(txs, p) && p[0] == x && p[|p| - 1] == y;
    var q :| Chain(txs, q) && q[0] == y && q[|q| - 1] == z;
    var r := p + q[1..];
    forall i | 0 < i < |r|
      ensures SpentTogether(txs, r[i - 1], r[i])
    {
      if i < |p| {
        assert SpentTogether(txs, p[i - 1], p[i]);
      } else {
        assert SpentTogether(txs, q[i - |p|], q[i - |p| + 1]);
      }
    }
    assert Chain(txs, r) && r[0] == x && r[|r| - 1] == z;
  }

  /** Links depend on which transactions there are, not on their order or number. */
  lemma LinkedByMembers(a: seq<BtcTx>, b: seq<BtcTx>, x: string, y: string)
    requires forall tx :: tx in a ==> tx in b
    ensures Linked(a, x, y) ==> Linked(b, x, y)
  {
    if Linked(a, x, y) {
      var p :| Chain(a, p) && p[0] == x && p[|p| - 1] == y;
      forall i | 0 < i < |p|
        ensures SpentTogether(b, p[i - 1], p[i])
      {
        assert SpentTogether(a, p[i - 1], p[i]);
      }
      assert Chain(b, p);
    }
  }

  // ---- the invariant of the clustering loop ----

  ghost predicate SameClass(rep: map<string, string>, x: string, y: string) {
    ClassOf(rep, x) == ClassOf(rep, y)
  }

  ghost predicate Sound(txs: seq<BtcTx>, rep: map<string, string>) {
    forall x, y :: SameClass(rep, x, y) ==> Linked(txs, x, y)
  }

  ghost predicate Together(rep: map<string, string>, addrs: seq<string>) {
    forall x, y :: x in addrs && y in addrs ==> SameClass(rep, x, y)
  }

  ghost predicate Complete(txs: seq<BtcTx>, rep: map<string, string>) {
    forall tx :: tx in txs && Accepted(tx) ==> Together(rep, tx.inputs)
  }

  /** rep' is rep with the classes of a and b merged. */
  ghost predicate Merged(rep: map<string, string>, a: string, b: string, rep': map<string, string>) {
    forall x, y :: ClassOf(rep', x) == ClassOf(rep', y) <==> JoinedBy(rep, a, b, x, y)
  }

  lemma {:induction false} MergeSound(txs: seq<BtcTx>, rep: map<string, string>, a: string, b: string, rep': map<string, string>)
    requires Sound(txs, rep) && SpentTogether(txs, a, b) && Merged(rep, a, b, rep')
    ensures Sound(txs, rep')
  {
    hide Linked, SpentTogether;
    LinkedOnce(txs, a, b);
    forall x, y | SameClass(rep', x, y)
      ensures Linked(txs, x, y)
    {
      assert JoinedBy(rep, a, b, x, y);
      if SameClass(rep, x, a) && SameClass(rep, b, y) {
        LinkedThrough(txs, x, a, b);
        LinkedThrough(txs, x, b, y);
      } else if SameClass(rep, x, b) && SameClass(rep, a, y) {
        LinkedThrough(txs, x, b, a);
        LinkedThrough(txs, x, a, y);
      } else {
        assert SameClass(rep, x, y);
      }
    }
  }

  lemma MergeKeeps(rep: map<string, string>, a: string, b: string, rep': map<string, string>)
    requires Merged(rep, a, b, rep')
    ensures SameClass(rep', a, b)
    ensures forall x, y :: SameClass(rep, x, y) ==> SameClass(rep', x, y)
  {
    assert JoinedBy(rep, a, b, a, b);
    forall x, y | SameClass(rep, x, y)
      ensures SameClass(rep', x, y)
    {
      assert JoinedBy(rep, a, b, x, y);
    }
  }

  lemma {:induction false} ChainInOneClass(txs: seq<BtcTx>, rep: map<string, string>, p: seq<string>)
    requires Complete(txs, rep) && Chain(txs, p)
    ensures SameClass(rep, p[0], p[|p| - 1])
  {
    var k := |p| - 1;
    if k > 0 {
      ChainInOneClass(txs, rep, p[..k]);
      assert SpentTogether(txs, p[k - 1], p[k]);
      var tx :| tx in txs && Accepted(tx) && p[k - 1] in tx.inputs && p[k] in tx.inputs;
      assert Together(rep, tx.inputs);
    }
  }

  lemma ClassesAreLinks(txs: seq<BtcTx>, rep: map<string, string>)
    requires Sound(txs, rep) && Complete(txs, rep)
    ensures forall x, y :: SameClass(rep, x, y) <==> Linked(txs, x, y)
  {
    forall x, y | Linked(txs, x, y)
      ensures SameClass(rep, x, y)
    {
      var p :| Chain(txs, p) && p[0] == x && p[|p| - 1] == y;
      ChainInOneClass(txs, rep, p);
    }
  }

  // ---- the clustering run ----

  ghost function Skipped(txs: seq<BtcTx>): seq<string> {
    if txs == [] then []
    else
      var k := |txs| - 1;
      if |txs[k].inputs| >= 2 && CoinJoinLike(txs[k], MIN_EQUAL) then Skipped(txs[..k]) + [txs[k].txid] else Skipped(txs[..k])
  }

  ghost function Clustered(txs: seq<BtcTx>): seq<string> {
    if txs == [] then []
    else
      var k := |txs| - 1;
      if Accepted(txs[k]) then Clustered(txs[..k]) + [txs[k].txid] else Clustered(txs[..k])
  }

  lemma SoundGrows(txs: seq<BtcTx>, tx: BtcTx, rep: map<string, string>)
    requires Sound(txs, rep)
    ensures Sound(txs + [tx], rep)
  {
    hide Linked;
    forall x, y | SameClass(rep, x, y)
      ensures Linked(txs + [tx], x, y)
    {
      LinkedByMembers(txs, txs + [tx], x, y);
    }
  }

  lemma CompleteKept(txs: seq<BtcTx>, rep: map<string, string>, rep': map<string, string>)
    requires Complete(txs, rep) && forall x, y :: SameClass(rep, x, y) ==> SameClass(rep', x, y)
    ensures Complete(txs, rep')
  {
    forall tx | tx in txs && Accepted(tx)
      ensures Together(rep', tx.inputs)
    {
      assert Together(rep, tx.inputs);
    }
  }

  lemma CompleteGrows(txs: seq<BtcTx>, tx: BtcTx, rep: map<string, string>)
    requires Complete(txs, rep) && (Accepted(tx) ==> Together(rep, tx.inputs))
    ensures Complete(txs + [tx], rep)
  {
  }

  /** `for (const a of rest) uf.union(first, a)` for an accepted transaction tx, the last of txs. */
  method UnionInputs(uf: UnionFind, ghost before: seq<BtcTx>, tx: BtcTx)
    requires uf.Valid() && Accepted(tx) && Sound(before + [tx], uf.rep) && Complete(before, uf.rep)
    modifies uf
    ensures uf.Valid() && Sound(before + [tx], uf.rep) && Complete(before + [tx], uf.rep)
  {
    hide Sound, Complete, ClassOf, JoinedBy;
    ghost var txs := before + [tx];
    var first := tx.inputs[0];
    for j := 1 to |tx.inputs|
      invariant uf.Valid() && Sound(txs, uf.rep) && Complete(before, uf.rep)
      invariant forall k :: 0 <= k < j ==> SameClass(uf.rep, first, tx.inputs[k])
    {
      var a := tx.inputs[j];
      ghost var was := uf.rep;
      uf.Union(first, a);
      assert Merged(was, first, a, uf.rep);
      assert tx in txs && first in tx.inputs && a in tx.inputs;
      assert SpentTogether(txs, first, a);
      MergeSound(txs, was, first, a, uf.rep);
      MergeKeeps(was, first, a, uf.rep);
      CompleteKept(before, was, uf.rep);
    }
    StarTogether(uf.rep, first, tx.inputs);
    CompleteGrows(before, tx, uf.rep);
  }

  lemma StarTogether(rep: map<string, string>, first: string, addrs: seq<string>)
    requires forall k :: 0 <= k < |addrs| ==> SameClass(rep, first, addrs[k])
    ensures Together(rep, addrs)
  {
  }

  lemma SeenClasses(rep: map<string, string>, x: string)
    ensures forall y, z :: SameClass(Seen(rep, x), y, z) <==> SameClass(rep, y, z)
  {
    assert forall y :: ClassOf(Seen(rep, x), y) == ClassOf(rep, y);
  }

  /** `for (const a of tx.inputs) uf.find(a)`: the partition stays as it was. */
  method FindInputs(uf: UnionFind, addrs: seq<string>)
    requires uf.Valid()
    modifies uf
    ensures uf.Valid()
    ensures var was := old(uf.rep); forall x, y :: SameClass(uf.rep, x, y) <==> SameClass(was, x, y)
  {
    hide SameClass, Seen;
    for j := 0 to |addrs|
      invariant uf.Valid()
      invariant var was := old(uf.rep); forall x, y :: SameClass(uf.rep, x, y) <==> SameClass(was, x, y)
    {
      SeenClasses(uf.rep, addrs[j]);
      var _ := uf.Find(addrs[j]);
    }
  }

  /** Two addresses share a root exactly when a chain of accepted transactions links them. */
  method ClusterBtcTransactions(txs: seq<BtcTx>) returns (uf: UnionFind, skipped: seq<string>, clustered: seq<string>)
    ensures fresh(uf) && uf.Valid()
    ensures forall x, y :: SameClass(uf.rep, x, y) <==> Linked(txs, x, y)
    ensures skipped == Skipped(txs) && clustered == Clustered(txs)
  {
    hide Sound, Complete, SameClass, CoinJoinLike;
    uf := new UnionFind();
    skipped, clustered := [], [];
    StartPartition();
    for i := 0 to |txs|
      invariant fresh(uf) && uf.Valid()
      invariant Sound(txs[..i], uf.rep) && Complete(txs[..i], uf.rep)
      invariant skipped == Skipped(txs[..i]) && clustered == Clustered(txs[..i])
    {
      var tx := txs[i];
      ghost var before := txs[..i];
      assert txs[..i + 1] == before + [tx];
      assert txs[..i + 1][..i] == before;
      SoundGrows(before, tx, uf.rep);
      ghost var was := uf.rep;
      if |tx.inputs| < 2 {
        FindInputs(uf, tx.inputs);
        SamePartition(before + [tx], was, uf.rep);
        CompleteKept(before, was, uf.rep);
        CompleteGrows(before, tx, uf.rep);
        continue;
      }
      var coinJoin := IsCoinJoinLike(tx, MIN_EQUAL);
      if coinJoin {
        skipped := skipped + [tx.txid];
        CompleteGrows(before, tx, uf.rep);
        continue;
      }
      UnionInputs(uf, before, tx);
      clustered := clustered + [tx.txid];
    }
    assert txs[..|txs|] == txs;
    ClassesAreLinks(txs, uf.rep);
  }

  lemma StartPartition()
    ensures Sound([], map[]) && Complete([], map[])
  {
    hide Linked;
    forall x, y | SameClass(map[], x, y)
      ensures Linked([], x, y)
    {
      LinkedSelf([], x);
    }
  }

  lemma SamePartition(txs: seq<BtcTx>, rep: map<string, string>, rep': map<string, string>)
    requires Sound(txs, rep) && forall x, y :: SameClass(rep', x, y) <==> SameClass(rep, x, y)
    ensures Sound(txs, rep')
  {
  }

  /** Reordering or repeating the transactions gives the same partition. */
  lemma OrderIrrelevant(a: seq<BtcTx>, b: seq<BtcTx>, ra: map<string, string>, rb: map<string, string>)
    requires forall tx :: tx in a <==> tx in b
    requires Sound(a, ra) && Complete(a, ra) && Sound(b, rb) && Complete(b, rb)
    ensures forall x, y :: SameClass(ra, x, y) <==> SameClass(rb, x, y)
  {
    hide Linked;
    ClassesAreLinks(a, ra);
    ClassesAreLinks(b, rb);
    forall x, y
      ensures SameClass(ra, x, y) <==> SameClass(rb, x, y)
    {
      LinkedByMembers(a, b, x, y);
      LinkedByMembers(b, a, x, y);
    }
  }
}
