// workers/trace/taint.ts: splitting a node's tainted balance over its selected outflows.
module TaintAllocation {
  import opened Wrappers
  import opened Taints

  datatype TaintModel = HAIRCUT | FIFO

  /** The USD value of each outflow, None when it could not be priced. */
  type Amounts = seq<Option<real>>

  function OrZero(usd: Option<real>): real {
    if usd.None? then 0.0 else usd.value
  }

  function Total(edges: Amounts): real {
    if edges == [] then 0.0 else Total(edges[..|edges| - 1]) + OrZero(edges[|edges| - 1])
  }

  function Sum(shares: seq<real>): real {
    if shares == [] then 0.0 else Sum(shares[..|shares| - 1]) + shares[|shares| - 1]
  }

  function Min(a: real, b: real): real {
    if a <= b then a else b
  }

  function Proportion(parent: Taint, total: real): real {
    if total <= 0.0 then 0.0 else if parent.Inf? then 1.0 else Min(1.0, parent.usd / total)
  }

  function Haircut(parent: Taint, edges: Amounts): (shares: seq<real>)
    ensures |shares| == |edges|
  {
    var p := Proportion(parent, Total(edges));
    seq(|edges|, i requires 0 <= i < |edges| => OrZero(edges[i]) * p)
  }

  /** What one FIFO outflow takes from the balance that is left. */
  function Take(remaining: Taint, usd: Option<real>): real {
    if usd.None? || (remaining.Fin? && remaining.usd <= 0.0) then 0.0
    else if remaining.Inf? then usd.value
    else Min(remaining.usd, usd.value)
  }

  /** The balance left after the outflows `edges`, oldest first. */
  function Remaining(parent: Taint, edges: Amounts): Taint {
    if edges == [] then parent
    else
      var before := Remaining(parent, edges[..|edges| - 1]);
      Plus(before, -Take(before, edges[|edges| - 1]))
  }

  function Fifo(parent: Taint, edges: Amounts): (shares: seq<real>)
    ensures |shares| == |edges|
  {
    if edges == [] then []
    else
      var init := edges[..|edges| - 1];
      Fifo(parent, init) + [Take(Remaining(parent, init), edges[|edges| - 1])]
  }

  function Allocate(model: TaintModel, parent: Taint, edges: Amounts): (shares: seq<real>)
    ensures |shares| == |edges|
  {
    match model
    case FIFO => Fifo(parent, edges)
    case HAIRCUT => Haircut(parent, edges)
  }

  method AllocateTaint(model: TaintModel, parent: Taint, edges: Amounts) returns (shares: seq<real>)
    ensures shares == Allocate(model, parent, edges)
  {
    if model == FIFO {
      var remaining := parent;
      shares := [];
      for i := 0 to |edges|
        invariant remaining == Remaining(parent, edges[..i])
        invariant shares == Fifo(parent, edges[..i])
      {
        assert edges[..i + 1][..i] == edges[..i];
        var share := Take(remaining, edges[i]);
        remaining := Plus(remaining, -share);
        shares := shares + [share];
      }
      assert edges[..|edges|] == edges;
    } else {
      shares := Haircut(parent, edges);
    }
  }

  // ---- what the two models promise ----

  ghost predicate NonNegative(edges: Amounts) {
    forall i :: 0 <= i < |edges| ==> OrZero(edges[i]) >= 0.0
  }

  /** What can be allotted at all: the parent's balance or the whole priced outflow, whichever is less. */
  function Allotted(parent: Taint, total: real): real {
    if parent.Inf? then total else Min(parent.usd, total)
  }

  ghost predicate Balance(parent: Taint) {
    parent.Inf? || parent.usd >= 0.0
  }

  lemma {:induction false} TotalNonNegative(edges: Amounts)
    requires NonNegative(edges)
    ensures Total(edges) >= 0.0
  {
    if edges != [] {
      TotalNonNegative(edges[..|edges| - 1]);
    }
  }

  lemma {:induction false} TotalOfPrefix(edges: Amounts, k: nat)
    requires NonNegative(edges) && k <= |edges|
    ensures Total(edges[..k]) <= Total(edges)
    decreases |edges|
  {
    if k == |edges| {
      assert edges[..k] == edges;
    } else {
      assert edges[..|edges| - 1][..k] == edges[..k];
      TotalOfPrefix(edges[..|edges| - 1], k);
    }
  }

  lemma {:induction false} RemainingAfter(parent: Taint, edges: Amounts)
    requires Balance(parent) && NonNegative(edges)
    ensures Remaining(parent, edges) == Plus(parent, -Allotted(parent, Total(edges)))
  {
    if edges != [] {
      var init := edges[..|edges| - 1];
      assert NonNegative(init);
      TotalNonNegative(init);
      RemainingAfter(parent, init);
    }
  }

  lemma {:induction false} FifoAllots(parent: Taint, edges: Amounts)
    requires Balance(parent) && NonNegative(edges)
    ensures Sum(Fifo(parent, edges)) == Allotted(parent, Total(edges))
  {
    if edges != [] {
      var init := edges[..|edges| - 1];
      assert NonNegative(init);
      TotalNonNegative(init);
      FifoAllots(parent, init);
      RemainingAfter(parent, init);
      assert Fifo(parent, edges)[..|init|] == Fifo(parent, init);
    }
  }

  /** FIFO decides an outflow from the ones before it alone. */
  lemma {:induction false} FifoPrefix(parent: Taint, edges: Amounts, k: nat)
    requires k <= |edges|
    ensures Fifo(parent, edges)[..k] == Fifo(parent, edges[..k])
    decreases |edges|
  {
    if k == |edges| {
      assert edges[..k] == edges;
    } else {
      var init := edges[..|edges| - 1];
      FifoPrefix(parent, init, k);
      assert init[..k] == edges[..k];
      assert Fifo(parent, edges)[..k] == Fifo(parent, init)[..k];
    }
  }

  lemma {:induction false} HaircutPrefixScales(parent: Taint, edges: Amounts, k: nat) returns (part: real, p: real)
    requires k <= |edges|
    ensures part == Total(edges[..k]) && p == Proportion(parent, Total(edges))
    ensures Sum(Haircut(parent, edges)[..k]) == part * p
    decreases k
  {
    part, p := Total(edges[..k]), Proportion(parent, Total(edges));
    var shares := Haircut(parent, edges);
    if k > 0 {
      var before, _ := HaircutPrefixScales(parent, edges, k - 1);
      assert shares[..k][..k - 1] == shares[..k - 1];
      assert edges[..k][..k - 1] == edges[..k - 1];
      Distribute(before, OrZero(edges[k - 1]), p);
    }
  }

  lemma Distribute(a: real, b: real, p: real)
    ensures (a + b) * p == a * p + b * p
  {
  }

  lemma ProportionBounds(parent: Taint, total: real)
    requires Balance(parent)
    ensures 0.0 <= Proportion(parent, total) <= 1.0
    ensures total >= 0.0 ==> total * Proportion(parent, total) == Allotted(parent, total)
  {
    if total > 0.0 && parent.Fin? {
      RatioFacts(parent.usd, total, parent.usd / total);
    }
  }

  lemma RatioFacts(a: real, b: real, q: real)
    requires b > 0.0 && a >= 0.0 && q == a / b
    ensures b * q == a && q >= 0.0
    ensures q <= 1.0 <==> a <= b
  {
    assert b * q == a;
    if q < 0.0 {
      ScaleStrict(q, 0.0, b, q * b, 0.0);
    } else if q > 1.0 {
      ScaleStrict(1.0, q, b, b, q * b);
    } else {
      Scale(q, 1.0, b, q * b, b);
    }
  }

  lemma Scale(a: real, b: real, p: real, ap: real, bp: real)
    requires a <= b && p >= 0.0 && ap == a * p && bp == b * p
    ensures ap <= bp
  {
  }

  lemma ScaleStrict(a: real, b: real, p: real, ap: real, bp: real)
    requires a < b && p > 0.0 && ap == a * p && bp == b * p
    ensures ap < bp
  {
    assert (b - a) * p > 0.0;
  }

  /** Both models hand out exactly min(parent, total priced outflow): no taint is invented or lost. */
  lemma AllotsExactly(model: TaintModel, parent: Taint, edges: Amounts)
    requires Balance(parent) && NonNegative(edges)
    ensures Sum(Allocate(model, parent, edges)) == Allotted(parent, Total(edges))
  {
    var shares := Allocate(model, parent, edges);
    assert shares[..|edges|] == shares && edges[..|edges|] == edges;
    TotalNonNegative(edges);
    if model == FIFO {
      FifoAllots(parent, edges);
    } else {
      var part, p := HaircutPrefixScales(parent, edges, |edges|);
      HaircutAllots(parent, part, p);
    }
  }

  lemma HaircutAllots(parent: Taint, total: real, p: real)
    requires Balance(parent) && total >= 0.0 && p == Proportion(parent, total)
    ensures total * p == Allotted(parent, total)
  {
    ProportionBounds(parent, total);
  }

  /** No outflow is tainted beyond its own value, and an unpriced one never is. */
  lemma {:induction false} SharesBounded(model: TaintModel, parent: Taint, edges: Amounts, i: nat)
    requires Balance(parent) && NonNegative(edges) && i < |edges|
    ensures 0.0 <= Allocate(model, parent, edges)[i] <= OrZero(edges[i])
    ensures edges[i].None? ==> Allocate(model, parent, edges)[i] == 0.0
  {
    if model == FIFO {
      FifoPrefix(parent, edges, i + 1);
      assert edges[..i + 1][..i] == edges[..i];
      assert Fifo(parent, edges)[i] == Fifo(parent, edges)[..i + 1][i];
      TotalNonNegative(edges[..i]);
      RemainingAfter(parent, edges[..i]);
    } else {
      TotalNonNegative(edges);
      ProportionBounds(parent, Total(edges));
      HaircutShareBounded(OrZero(edges[i]), Proportion(parent, Total(edges)), Haircut(parent, edges)[i]);
    }
  }

  lemma HaircutShareBounded(usd: real, p: real, share: real)
    requires 0.0 <= usd && 0.0 <= p <= 1.0 && share == usd * p
    ensures 0.0 <= share <= usd
  {
    Scale(p, 1.0, usd, share, usd);
    Scale(0.0, p, usd, 0.0, share);
  }

  /** After any number of outflows FIFO has moved at least as much taint as HAIRCUT. */
  lemma FifoLeadsHaircut(parent: Taint, edges: Amounts, k: nat)
    requires Balance(parent) && NonNegative(edges) && k <= |edges|
    ensures Sum(Haircut(parent, edges)[..k]) <= Sum(Fifo(parent, edges)[..k])
  {
    FifoPrefix(parent, edges, k);
    FifoAllots(parent, edges[..k]);
    var part, p := HaircutPrefixScales(parent, edges, k);
    TotalOfPrefix(edges, k);
    TotalNonNegative(edges[..k]);
    HaircutCaps(parent, part, Total(edges), p, Sum(Haircut(parent, edges)[..k]));
  }

  lemma HaircutCaps(parent: Taint, part: real, total: real, p: real, moved: real)
    requires Balance(parent) && 0.0 <= part <= total
    requires p == Proportion(parent, total) && moved == part * p
    ensures moved <= Allotted(parent, part)
  {
    ProportionBounds(parent, total);
    HaircutShareBounded(part, p, moved);
    HaircutAllots(parent, total, p);
    Scale(part, total, p, moved, total * p);
  }

  /** HAIRCUT shares are in proportion to the outflows' values. */
  lemma HaircutIsProportional(parent: Taint, edges: Amounts, i: nat, j: nat)
    requires i < |edges| && j < |edges|
    ensures Haircut(parent, edges)[i] * OrZero(edges[j]) == Haircut(parent, edges)[j] * OrZero(edges[i])
  {
    SameFactor(OrZero(edges[i]), OrZero(edges[j]), Proportion(parent, Total(edges)));
  }

  lemma SameFactor(a: real, b: real, p: real)
    ensures a * p * b == b * p * a
  {
  }

  /** The first k outflows get what can be allotted of their value, and so an outflow gets nothing while an earlier one
      has not been filled. */
  lemma FifoInTurn(parent: Taint, edges: Amounts, k: nat)
    requires Balance(parent) && NonNegative(edges) && k <= |edges|
    ensures Sum(Fifo(parent, edges)[..k]) == Allotted(parent, Total(edges[..k]))
    ensures forall i :: 0 <= i < k < |edges| && Fifo(parent, edges)[i] < OrZero(edges[i]) ==> Fifo(parent, edges)[k] == 0.0
  {
    FifoPrefix(parent, edges, k);
    FifoAllots(parent, edges[..k]);
    forall i | 0 <= i < k < |edges| && Fifo(parent, edges)[i] < OrZero(edges[i])
      ensures Fifo(parent, edges)[k] == 0.0
    {
      NothingLeft(parent, edges, i, k);
    }
  }

  lemma NothingLeft(parent: Taint, edges: Amounts, i: nat, k: nat)
    requires Balance(parent) && NonNegative(edges) && i < k < |edges| && Fifo(parent, edges)[i] < OrZero(edges[i])
    ensures Fifo(parent, edges)[k] == 0.0
  {
    hide Fifo, Remaining, NonNegative, Total;
    FifoShare(parent, edges, i);
    FifoShare(parent, edges, k);
    assert NonNegative(edges[..i]) && NonNegative(edges[..k]) by {
      PrefixNonNegative(edges, i);
      PrefixNonNegative(edges, k);
    }
    RemainingAfter(parent, edges[..i]);
    RemainingAfter(parent, edges[..k]);
    TotalNonNegative(edges[..i]);
    TotalAdds(edges, i, k);
  }

  lemma PrefixNonNegative(edges: Amounts, k: nat)
    requires NonNegative(edges) && k <= |edges|
    ensures NonNegative(edges[..k])
  {
  }

  lemma TotalAdds(edges: Amounts, i: nat, k: nat)
    requires NonNegative(edges) && i < k <= |edges|
    ensures Total(edges[..i]) + OrZero(edges[i]) <= Total(edges[..k])
  {
    PrefixNonNegative(edges, k);
    TotalOfPrefix(edges[..k], i + 1);
    assert edges[..k][..i + 1] == edges[..i + 1];
    assert edges[..i + 1][..i] == edges[..i];
  }

  lemma FifoShare(parent: Taint, edges: Amounts, i: nat)
    requires i < |edges|
    ensures Fifo(parent, edges)[i] == Take(Remaining(parent, edges[..i]), edges[i])
  {
    FifoPrefix(parent, edges, i + 1);
    assert edges[..i + 1][..i] == edges[..i];
    assert Fifo(parent, edges)[i] == Fifo(parent, edges)[..i + 1][i];
  }
}
