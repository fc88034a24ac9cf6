// Array.prototype.filter, .sort and .slice as functions, with the facts the models need.
module Sequences {
  function Filter<T(!new)>(s: seq<T>, p: T -> bool): (r: seq<T>)
    ensures forall x :: x in r <==> x in s && p(x)
  {
    if s == [] then []
    else
      var rest := Filter(s[..|s| - 1], p);
      assert s == s[..|s| - 1] + [s[|s| - 1]];
      if p(s[|s| - 1]) then rest + [s[|s| - 1]] else rest
  }

  lemma {:induction false} FilterAgrees<T(!new)>(s: seq<T>, p: T -> bool, q: T -> bool)
    requires forall x :: p(x) == q(x)
    ensures Filter(s, p) == Filter(s, q)
  {
    if s != [] {
      FilterAgrees(s[..|s| - 1], p, q);
    }
  }

  /** s.slice(0, k), which drops -k elements from the end when k is negative. */
  function SliceTo<T>(s: seq<T>, k: int): (r: seq<T>)
    ensures r <= s && (k >= 0 ==> |r| <= k)
  {
    if k >= |s| then s
    else if k >= 0 then s[..k]
    else if |s| + k >= 0 then s[..|s| + k]
    else []
  }

  /** Puts x behind every element that is at most x. */
  function Insert<T>(s: seq<T>, x: T, leq: (T, T) -> bool): seq<T> {
    if s == [] || leq(s[|s| - 1], x) then s + [x]
    else Insert(s[..|s| - 1], x, leq) + [s[|s| - 1]]
  }

  /** A stable sort, as ECMAScript requires of Array.prototype.sort. */
  function Sort<T>(s: seq<T>, leq: (T, T) -> bool): seq<T> {
    if s == [] then [] else Insert(Sort(s[..|s| - 1], leq), s[|s| - 1], leq)
  }

  ghost predicate TotalPreorder<T(!new)>(leq: (T, T) -> bool) {
    && (forall x, y :: leq(x, y) || leq(y, x))
    && (forall x, y, z :: leq(x, y) && leq(y, z) ==> leq(x, z))
  }

  ghost predicate SortedBy<T>(s: seq<T>, leq: (T, T) -> bool) {
    forall i, j :: 0 <= i < j < |s| ==> leq(s[i], s[j])
  }

  lemma {:induction false} InsertMultiset<T>(s: seq<T>, x: T, leq: (T, T) -> bool)
    ensures multiset(Insert(s, x, leq)) == multiset(s) + multiset{x}
  {
    if s != [] && !leq(s[|s| - 1], x) {
      InsertMultiset(s[..|s| - 1], x, leq);
      assert s == s[..|s| - 1] + [s[|s| - 1]];
    }
  }

  lemma {:induction false} InsertSorts<T(!new)>(s: seq<T>, x: T, leq: (T, T) -> bool)
    requires TotalPreorder(leq) && SortedBy(s, leq)
    ensures SortedBy(Insert(s, x, leq), leq)
  {
    if s != [] && !leq(s[|s| - 1], x) {
      var init, last := s[..|s| - 1], s[|s| - 1];
      InsertSorts(init, x, leq);
      var r := Insert(init, x, leq);
      forall i | 0 <= i < |r|
        ensures leq(r[i], last)
      {
        InsertMultiset(init, x, leq);
        assert r[i] in multiset(r);
        assert r[i] in init || r[i] == x;
      }
    }
  }

  lemma {:induction false} SortSorts<T(!new)>(s: seq<T>, leq: (T, T) -> bool)
    requires TotalPreorder(leq)
    ensures SortedBy(Sort(s, leq), leq)
  {
    if s != [] {
      SortSorts(s[..|s| - 1], leq);
      InsertSorts(Sort(s[..|s| - 1], leq), s[|s| - 1], leq);
    }
  }

  lemma {:induction false} SortMultiset<T>(s: seq<T>, leq: (T, T) -> bool)
    ensures multiset(Sort(s, leq)) == multiset(s) && |Sort(s, leq)| == |s|
  {
    if s != [] {
      SortMultiset(s[..|s| - 1], leq);
      InsertMultiset(Sort(s[..|s| - 1], leq), s[|s| - 1], leq);
      assert s == s[..|s| - 1] + [s[|s| - 1]];
      assert |Sort(s, leq)| == |multiset(Sort(s, leq))|;
    }
  }

  /** [...new Set(s)] */
  function Distinct<T(==,!new)>(s: seq<T>): (r: seq<T>)
    ensures forall x :: x in r <==> x in s
    ensures forall i, j :: 0 <= i < j < |r| ==> r[i] != r[j]
  {
    if s == [] then []
    else
      var rest, last := Distinct(s[..|s| - 1]), s[|s| - 1];
      assert s == s[..|s| - 1] + [last];
      if last in rest then rest else rest + [last]
  }

  /** The values of f over s, with multiplicity. */
  ghost function BagBy<T, K>(s: seq<T>, f: T -> K): multiset<K> {
    if s == [] then multiset{} else BagBy(s[..|s| - 1], f) + multiset{f(s[|s| - 1])}
  }

  ghost function SumBy<T>(s: seq<T>, f: T -> real): real {
    if s == [] then 0.0 else SumBy(s[..|s| - 1], f) + f(s[|s| - 1])
  }

  lemma BagSnoc<T, K>(s: seq<T>, x: T, f: T -> K)
    ensures BagBy(s + [x], f) == BagBy(s, f) + multiset{f(x)}
  {
    assert (s + [x])[..|s|] == s;
  }

  lemma {:induction false} InsertBag<T, K>(s: seq<T>, x: T, leq: (T, T) -> bool, f: T -> K)
    ensures BagBy(Insert(s, x, leq), f) == BagBy(s, f) + multiset{f(x)}
  {
    if s == [] || leq(s[|s| - 1], x) {
      BagSnoc(s, x, f);
    } else {
      InsertBag(s[..|s| - 1], x, leq, f);
      BagSnoc(Insert(s[..|s| - 1], x, leq), s[|s| - 1], f);
    }
  }

  lemma {:induction false} SortBag<T, K>(s: seq<T>, leq: (T, T) -> bool, f: T -> K)
    ensures BagBy(Sort(s, leq), f) == BagBy(s, f)
  {
    if s != [] {
      SortBag(s[..|s| - 1], leq, f);
      InsertBag(Sort(s[..|s| - 1], leq), s[|s| - 1], leq, f);
    }
  }

  lemma {:induction false} InsertSum<T>(s: seq<T>, x: T, leq: (T, T) -> bool, g: T -> real)
    ensures SumBy(Insert(s, x, leq), g) == SumBy(s, g) + g(x)
  {
    if s == [] || leq(s[|s| - 1], x) {
      assert (s + [x])[..|s|] == s;
    } else {
      var r := Insert(s[..|s| - 1], x, leq);
      InsertSum(s[..|s| - 1], x, leq, g);
      assert (r + [s[|s| - 1]])[..|r|] == r;
    }
  }

  lemma {:induction false} SortSum<T>(s: seq<T>, leq: (T, T) -> bool, g: T -> real)
    ensures SumBy(Sort(s, leq), g) == SumBy(s, g)
  {
    if s != [] {
      SortSum(s[..|s| - 1], leq, g);
      InsertSum(Sort(s[..|s| - 1], leq), s[|s| - 1], leq, g);
    }
  }

  lemma {:induction false} FilterBag<T(!new), K>(s: seq<T>, p: T -> bool, f: T -> K)
    ensures BagBy(Filter(s, p), f) <= BagBy(s, f)
  {
    if s != [] {
      FilterBag(s[..|s| - 1], p, f);
      BagSnoc(Filter(s[..|s| - 1], p), s[|s| - 1], f);
    }
  }

  lemma {:induction false} SplitBag<T(!new), K>(s: seq<T>, p: T -> bool, q: T -> bool, f: T -> K)
    requires forall x :: x in s ==> q(x) == !p(x)
    ensures BagBy(Filter(s, p), f) + BagBy(Filter(s, q), f) == BagBy(s, f)
  {
    if s != [] {
      var init, last := s[..|s| - 1], s[|s| - 1];
      assert last in s;
      SplitBag(init, p, q, f);
      BagSnoc(Filter(init, p), last, f);
      BagSnoc(Filter(init, q), last, f);
    }
  }

  lemma {:induction false} PrefixBag<T, K>(r: seq<T>, s: seq<T>, f: T -> K)
    requires r <= s
    ensures BagBy(r, f) <= BagBy(s, f)
    decreases |s|
  {
    if r != s {
      assert r <= s[..|s| - 1];
      PrefixBag(r, s[..|s| - 1], f);
    }
  }

  lemma {:induction false} BagHas<T(!new), K>(s: seq<T>, f: T -> K, k: K)
    ensures k in BagBy(s, f) <==> exists x :: x in s && f(x) == k
  {
    if s != [] {
      var init, last := s[..|s| - 1], s[|s| - 1];
      BagHas(init, f, k);
      assert s == init + [last];
      assert last in s;
    }
  }

  lemma {:induction false} OnceInBag<T>(s: seq<T>, x: T)
    requires forall i, j :: 0 <= i < j < |s| ==> s[i] != s[j]
    ensures multiset(s)[x] <= 1
  {
    if s != [] {
      var k := |s| - 1;
      OnceInBag(s[..k], x);
      assert s == s[..k] + [s[k]];
      assert s[k] !in multiset(s[..k]);
    }
  }

  /** A rearrangement of distinct elements has distinct elements. */
  lemma BagDistinct<T>(s: seq<T>, t: seq<T>)
    requires multiset(s) == multiset(t)
    requires forall i, j :: 0 <= i < j < |s| ==> s[i] != s[j]
    ensures forall i, j :: 0 <= i < j < |t| ==> t[i] != t[j]
  {
    forall i, j | 0 <= i < j < |t|
      ensures t[i] != t[j]
    {
      OnceInBag(s, t[i]);
      assert t == t[..j] + [t[j]] + t[j + 1..];
      assert t[i] in multiset(t[..j]);
    }
  }

  // ---- what a filter keeps ----

  /** r lists the elements of s that satisfy p: all of them, as often and in the order s does. */
  ghost predicate KeptInOrder<T(!new)>(r: seq<T>, s: seq<T>, p: T -> bool) {
    exists at: seq<nat> :: KeptAt(r, s, p, at)
  }

  ghost predicate KeptAt<T(!new)>(r: seq<T>, s: seq<T>, p: T -> bool, at: seq<nat>) {
    && |at| == |r|
    && (forall i, j :: 0 <= i < j < |at| ==> at[i] < at[j])
    && (forall i :: 0 <= i < |at| ==> at[i] < |s| && p(s[at[i]]) && r[i] == s[at[i]])
    && (forall k: nat :: k < |s| && p(s[k]) ==> k in at)
  }

  lemma {:induction false} FilterKeeps<T(!new)>(s: seq<T>, p: T -> bool)
    ensures KeptInOrder(Filter(s, p), s, p)
  {
    hide KeptAt;
    if s == [] {
      NothingKept(s, p);
    } else {
      var n := |s| - 1;
      FilterKeeps(s[..n], p);
      var at :| KeptAt(Filter(s[..n], p), s[..n], p, at);
      OneMoreKept(Filter(s[..n], p), s, p, at);
    }
  }

  lemma NothingKept<T(!new)>(s: seq<T>, p: T -> bool)
    requires s == []
    ensures KeptAt([], s, p, [])
  {
  }

  lemma OneMoreKept<T(!new)>(r: seq<T>, s: seq<T>, p: T -> bool, at: seq<nat>)
    requires s != [] && KeptAt(r, s[..|s| - 1], p, at)
    ensures var n := |s| - 1; if p(s[n]) then KeptAt(r + [s[n]], s, p, at + [n]) else KeptAt(r, s, p, at)
  {
    var n: nat := |s| - 1;
    var init := s[..n];
    assert forall k: nat :: k < n ==> init[k] == s[k];
    forall k: nat | k < n && p(s[k])
      ensures k in at
    {
      assert p(init[k]);
    }
    if p(s[n]) {
      var more := at + [n];
      assert more[|at|] == n;
      assert forall k :: k in at ==> k in more;
    }
  }

  /** The positions of s that satisfy p. */
  ghost function Places<T(!new)>(s: seq<T>, p: T -> bool): set<nat> {
    set i: nat | i < |s| && p(s[i])
  }

  lemma PlacesGrow<T(!new)>(s: seq<T>, p: T -> bool)
    requires s != []
    ensures |Places(s, p)| == |Places(s[..|s| - 1], p)| + if p(s[|s| - 1]) then 1 else 0
  {
    var n: nat := |s| - 1;
    var before, now := Places(s[..n], p), Places(s, p);
    forall i: nat
      ensures i in now <==> i in before || (i == n && p(s[n]))
    {
    }
    if p(s[n]) {
      assert now == before + {n};
    } else {
      assert now == before;
    }
  }

  lemma {:induction false} FilterCounts<T(!new)>(s: seq<T>, p: T -> bool)
    ensures |Filter(s, p)| == |Places(s, p)|
  {
    hide Places;
    if s == [] {
      NoPlaces(s, p);
    } else {
      FilterCounts(s[..|s| - 1], p);
      PlacesGrow(s, p);
    }
  }

  lemma NoPlaces<T(!new)>(s: seq<T>, p: T -> bool)
    requires s == []
    ensures |Places(s, p)| == 0
  {
    assert Places(s, p) == {};
  }

  lemma {:induction false} FilterBags<T(!new)>(s: seq<T>, p: T -> bool, x: T)
    ensures multiset(Filter(s, p))[x] == if p(x) then multiset(s)[x] else 0
  {
    if s != [] {
      var n := |s| - 1;
      FilterBags(s[..n], p, x);
      assert s == s[..n] + [s[n]];
    }
  }
}
