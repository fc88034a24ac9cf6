// workers/trace/priorityQueue.ts: the max-heap behind the trace frontier.
module Taints {
  /** A taint in USD. Only a trace seed with no reported amount carries Inf (JavaScript's Infinity). */
  datatype Taint = Fin(usd: real) | Inf

  predicate Leq(a: Taint, b: Taint) {
    b.Inf? || (a.Fin? && a.usd <= b.usd)
  }

  predicate Less(a: Taint, b: Taint) {
    !Leq(b, a)
  }

  function Plus(a: Taint, share: real): Taint {
    if a.Inf? then Inf else Fin(a.usd + share)
  }
}

module TaintQueue {
  import opened Wrappers
  import opened Taints

  datatype HeapEntry<K> = HeapEntry(key: K, taint: Taint)

  function Parent(i: int): int
    requires i > 0
  {
    (i - 1) / 2
  }

  /** Every entry but the one at `except` is at most its parent; -1 excepts nothing. */
  ghost predicate HeapExceptUp<K>(h: seq<HeapEntry<K>>, except: int) {
    forall i :: 0 < i < |h| && i != except ==> Leq(h[i].taint, h[Parent(i)].taint)
  }

  /** The heap order everywhere but between `hole` and its children. */
  ghost predicate HeapExceptDown<K>(h: seq<HeapEntry<K>>, hole: int) {
    forall i :: 0 < i < |h| && Parent(i) != hole ==> Leq(h[i].taint, h[Parent(i)].taint)
  }

  ghost predicate IsHeap<K>(h: seq<HeapEntry<K>>) {
    HeapExceptUp(h, -1)
  }

  /** The children of `hole` are at most its parent. */
  ghost predicate Skips<K>(h: seq<HeapEntry<K>>, hole: int) {
    forall i :: 0 < i < |h| && Parent(i) == hole && hole > 0 ==>
      Leq(h[i].taint, h[Parent(hole)].taint)
  }

  lemma {:induction false} RootIsMax<K>(h: seq<HeapEntry<K>>, i: nat)
    requires IsHeap(h) && i < |h|
    ensures Leq(h[i].taint, h[0].taint)
    decreases i
  {
    if i > 0 {
      RootIsMax(h, Parent(i));
    }
  }

  function Swapped<T>(s: seq<T>, i: nat, j: nat): (r: seq<T>)
    requires i < |s| && j < |s|
    ensures |r| == |s|
  {
    s[i := s[j]][j := s[i]]
  }

  lemma SwapKeepsEntries<T>(s: seq<T>, i: nat, j: nat)
    requires i < |s| && j < |s|
    ensures multiset(Swapped(s, i, j)) == multiset(s)
  {
  }

  /** Moving the greatest child up leaves a hole one level down. */
  lemma SiftStep<K>(h: seq<HeapEntry<K>>, idx: nat, child: nat)
    requires child < |h| && child > 0 && Parent(child) == idx
    requires HeapExceptDown(h, idx) && Skips(h, idx)
    requires Leq(h[idx].taint, h[child].taint)
    requires forall i :: 0 < i < |h| && Parent(i) == idx ==> Leq(h[i].taint, h[child].taint)
    ensures HeapExceptDown(Swapped(h, child, idx), child) && Skips(Swapped(h, child, idx), child)
  {
    var g := Swapped(h, child, idx);
    forall i | 0 < i < |g| && Parent(i) != child
      ensures Leq(g[i].taint, g[Parent(i)].taint)
    {
      if Parent(i) == idx {
        assert g[Parent(i)] == h[child];
      } else if i == idx {
        assert g[i] == h[child];
      } else {
        assert g[i] == h[i] && g[Parent(i)] == h[Parent(i)];
      }
    }
    forall i | 0 < i < |g| && Parent(i) == child
      ensures Leq(g[i].taint, g[Parent(child)].taint)
    {
      assert g[i] == h[i];
    }
  }

  /** Moving an entry above its smaller parent leaves the only violation one level up. */
  lemma LiftStep<K>(h: seq<HeapEntry<K>>, idx: nat)
    requires 0 < idx < |h| && HeapExceptUp(h, idx) && Skips(h, idx) && Less(h[Parent(idx)].taint, h[idx].taint)
    ensures var g := Swapped(h, Parent(idx), idx); HeapExceptUp(g, Parent(idx)) && Skips(g, Parent(idx))
  {
    var up := Parent(idx);
    var g := Swapped(h, up, idx);
    forall i | 0 < i < |g| && i != up
      ensures Leq(g[i].taint, g[Parent(i)].taint)
    {
      if i == idx {
        assert g[i] == h[up];
      } else {
        assert g[i] == h[i];
        assert Leq(h[i].taint, h[Parent(i)].taint);
      }
    }
    forall i | 0 < i < |g| && Parent(i) == up && up > 0
      ensures Leq(g[i].taint, g[Parent(up)].taint)
    {
      assert g[Parent(up)] == h[Parent(up)] && Leq(h[up].taint, h[Parent(up)].taint);
      assert i != idx ==> g[i] == h[i] && Leq(h[i].taint, h[up].taint);
    }
  }

  lemma Lifted<K>(h: seq<HeapEntry<K>>, idx: nat)
    requires idx < |h| && HeapExceptUp(h, idx) && (idx == 0 || Leq(h[idx].taint, h[Parent(idx)].taint))
    ensures IsHeap(h)
  {
  }

  lemma EntriesAfterPush<T(!new)>(before: seq<T>, after: seq<T>, x: T)
    requires multiset(after) == multiset(before) + multiset{x}
    ensures forall e :: e in after <==> e in before || e == x
  {
    assert forall e :: e in after <==> e in multiset(after);
  }

  lemma EntriesAfterPop<T(!new)>(before: seq<T>, after: seq<T>, x: T)
    requires multiset(after) == multiset(before) - multiset{x}
    ensures forall e :: e in after ==> e in before
    ensures forall e :: e in before && e != x ==> e in after
  {
    assert forall e :: e in after <==> e in multiset(after);
    assert forall e :: e in before <==> e in multiset(before);
  }

  /** The index among idx and its children that holds the greatest taint; idx on a tie. */
  function LargestOfThree<K>(h: seq<HeapEntry<K>>, idx: nat): (r: nat)
    requires idx < |h|
    ensures r < |h| && (r == idx || (r > idx && Parent(r) == idx))
    ensures Leq(h[idx].taint, h[r].taint)
    ensures forall i :: 0 < i < |h| && Parent(i) == idx ==> Leq(h[i].taint, h[r].taint)
  {
    var left := idx * 2 + 1;
    var right := idx * 2 + 2;
    var l := if left < |h| && Less(h[idx].taint, h[left].taint) then left else idx;
    assert forall i :: 0 < i < |h| && Parent(i) == idx ==> i == left || i == right;
    if right < |h| && Less(h[l].taint, h[right].taint) then right else l
  }

  // ---- the heap after a push or a pop, as a function of the heap before it ----

  function SiftedUp<K>(h: seq<HeapEntry<K>>, idx: nat): (r: seq<HeapEntry<K>>)
    requires idx < |h|
    ensures |r| == |h|
    decreases idx
  {
    if idx == 0 || Leq(h[idx].taint, h[Parent(idx)].taint) then h
    else SiftedUp(Swapped(h, Parent(idx), idx), Parent(idx))
  }

  function SiftedDown<K>(h: seq<HeapEntry<K>>, idx: nat): (r: seq<HeapEntry<K>>)
    requires idx < |h|
    ensures |r| == |h|
    decreases |h| - idx
  {
    var largest := LargestOfThree(h, idx);
    if largest == idx then h else SiftedDown(Swapped(h, largest, idx), largest)
  }

  function Pushed<K>(h: seq<HeapEntry<K>>, e: HeapEntry<K>): (r: seq<HeapEntry<K>>)
    ensures |r| == |h| + 1
  {
    SiftedUp(h + [e], |h|)
  }

  function Popped<K>(h: seq<HeapEntry<K>>): (r: seq<HeapEntry<K>>)
    requires h != []
    ensures |r| == |h| - 1
  {
    var rest, last := h[..|h| - 1], h[|h| - 1];
    if rest == [] then rest else SiftedDown(rest[0 := last], 0)
  }

  class TaintPriorityQueue<K(==,!new)> {
    var heap: seq<HeapEntry<K>>

    ghost predicate Valid()
      reads this
    {
      IsHeap(heap)
    }

    constructor ()
      ensures Valid() && heap == []
    {
      heap := [];
    }

    method Push(key: K, taint: Taint)
      requires Valid()
      modifies this
      ensures Valid()
      ensures heap == Pushed(old(heap), HeapEntry(key, taint))
      ensures multiset(heap) == old(multiset(heap)) + multiset{HeapEntry(key, taint)}
      ensures forall e :: e in heap <==> e in old(heap) || e == HeapEntry(key, taint)
    {
      var entry := HeapEntry(key, taint);
      heap := heap + [entry];
      BubbleUp(|heap| - 1);
      EntriesAfterPush(old(heap), heap, entry);
    }

    /** Removes and returns an entry of greatest taint; None on an empty queue. */
    method Pop() returns (r: Option<HeapEntry<K>>)
      requires Valid()
      modifies this
      ensures Valid()
      ensures r.None? <==> old(heap) == []
      ensures r.None? ==> heap == old(heap)
      ensures r.Some? ==> r.value == old(heap)[0] && heap == Popped(old(heap))
      ensures r.Some? ==> r.value in old(heap) && multiset(heap) == old(multiset(heap)) - multiset{r.value}
      ensures r.Some? ==> forall e :: e in old(heap) ==> Leq(e.taint, r.value.taint)
      ensures r.Some? ==> |heap| == |old(heap)| - 1
      ensures r.Some? ==> forall e :: e in heap ==> e in old(heap)
      ensures r.Some? ==> forall e :: e in old(heap) && e != r.value ==> e in heap
    {
      if heap == [] {
        return None;
      }
      var top := heap[0];
      forall e | e in heap
        ensures Leq(e.taint, top.taint)
      {
        var i :| 0 <= i < |heap| && heap[i] == e;
        RootIsMax(heap, i);
      }
      var last := heap[|heap| - 1];
      assert heap == heap[..|heap| - 1] + [last];
      heap := heap[..|heap| - 1];
      if |heap| > 0 {
        heap := heap[0 := last];
        BubbleDown(0);
      }
      EntriesAfterPop(old(heap), heap, top);
      return Some(top);
    }

    method BubbleUp(i: nat)
      requires i < |heap| && HeapExceptUp(heap, i) && Skips(heap, i)
      modifies this
      ensures Valid() && heap == SiftedUp(old(heap), i)
      ensures multiset(heap) == old(multiset(heap)) && |heap| == |old(heap)|
    {
      hide HeapExceptUp, Skips, Swapped;
      var idx := i;
      while idx > 0 && Less(heap[Parent(idx)].taint, heap[idx].taint)
        invariant 0 <= idx < |heap| == |old(heap)|
        invariant SiftedUp(heap, idx) == SiftedUp(old(heap), i)
        invariant HeapExceptUp(heap, idx) && Skips(heap, idx)
        invariant multiset(heap) == old(multiset(heap))
      {
        var parent := Parent(idx);
        LiftStep(heap, idx);
        SwapKeepsEntries(heap, parent, idx);
        heap := Swapped(heap, parent, idx);
        idx := parent;
      }
      Lifted(heap, idx);
    }

    method BubbleDown(i: nat)
      requires i < |heap| && HeapExceptDown(heap, i) && Skips(heap, i)
      modifies this
      ensures Valid() && heap == SiftedDown(old(heap), i)
      ensures multiset(heap) == old(multiset(heap)) && |heap| == |old(heap)|
    {
      var idx := i;
      while true
        invariant 0 <= idx < |heap| && SiftedDown(heap, idx) == SiftedDown(old(heap), i)
        invariant 0 <= idx < |heap| == |old(heap)|
        invariant HeapExceptDown(heap, idx) && Skips(heap, idx)
        invariant multiset(heap) == old(multiset(heap))
        decreases |heap| - idx
      {
        var largest := LargestOfThree(heap, idx);
        if largest == idx {
          break;
        }
        SiftStep(heap, idx, largest);
        SwapKeepsEntries(heap, largest, idx);
        heap := Swapped(heap, largest, idx);
        idx := largest;
      }
    }
  }
}
