// workers/adapters/btc.ts, transfersOf: every output of a transaction is split over the addresses that paid in,
// in proportion to what each paid, rounding down to a whole satoshi.
module BtcMoney {
  import opened Pagination
  import opened Sequences
  import opened Units
  import opened Transfers
  import opened Wrappers

  /** addr is None where the script has no address. */
  datatype Prevout = Prevout(addr: Option<string>, value: nat)
  datatype Vin = Vin(prevout: Option<Prevout>, isCoinbase: bool)
  datatype Vout = Vout(addr: Option<string>, value: nat)
  datatype Tx = Tx(txid: string, vin: seq<Vin>, vout: seq<Vout>, ts: int)
  datatype Direction = Incoming | Outgoing

  const DECIMALS: nat := 8
  const IDX_BAND: nat := 1000
  const COINBASE := "coinbase"

  predicate PaidBy(v: Vin, a: string) {
    v.prevout.Some? && v.prevout.value.addr == Some(a)
  }

  predicate HasPayer(v: Vin) {
    v.prevout.Some? && v.prevout.value.addr.Some?
  }

  ghost function InputSum(vin: seq<Vin>, a: string): nat {
    if vin == [] then 0
    else
      var rest := InputSum(vin[..|vin| - 1], a);
      if PaidBy(vin[|vin| - 1], a) then rest + vin[|vin| - 1].prevout.value.value else rest
  }

  ghost function TotalIn(vin: seq<Vin>): nat {
    if vin == [] then 0
    else
      var rest := TotalIn(vin[..|vin| - 1]);
      if HasPayer(vin[|vin| - 1]) then rest + vin[|vin| - 1].prevout.value.value else rest
  }

  /** The paying addresses in the order of their first input. */
  ghost function Payers(vin: seq<Vin>): seq<string> {
    if vin == [] then []
    else
      var rest, v := Payers(vin[..|vin| - 1]), vin[|vin| - 1];
      if HasPayer(v) && v.prevout.value.addr.value !in rest then rest + [v.prevout.value.addr.value] else rest
  }

  function Share(value: nat, sum: nat, total: nat): nat
    requires total > 0
  {
    value * sum / total
  }

  function Row(t: Tx, idx: nat, from: string, to: string, sats: nat): Transfer {
    Transfer(t.txid, idx, from, to, "BTC", FormatUnits(sats, DECIMALS), None, t.ts)
  }

  // ---- what the two views hold ----

  /** addr as the sender: one row for every output to somebody else. */
  ghost function SentRows(t: Tx, addr: string, n: nat): seq<Transfer>
    requires n <= |t.vout| && TotalIn(t.vin) > 0
  {
    if n == 0 then []
    else
      var rest, o := SentRows(t, addr, n - 1), t.vout[n - 1];
      if o.addr.None? || o.addr == Some(addr) then rest
      else rest + [Row(t, (n - 1) * IDX_BAND, addr, o.addr.value, Share(o.value, InputSum(t.vin, addr), TotalIn(t.vin)))]
  }

  /** addr as the receiver of output n: one row for each of the first k senders, other than addr. */
  ghost function RowsOfOutput(t: Tx, addr: string, n: nat, senders: seq<string>, k: nat): seq<Transfer>
    requires n < |t.vout| && k <= |senders| && TotalIn(t.vin) > 0
  {
    if k == 0 then []
    else
      var rest, from := RowsOfOutput(t, addr, n, senders, k - 1), senders[k - 1];
      if from == addr then rest
      else rest + [Row(t, n * IDX_BAND + k - 1, from, addr, Share(t.vout[n].value, InputSum(t.vin, from), TotalIn(t.vin)))]
  }

  predicate IsMint(t: Tx) {
    exists i :: 0 <= i < |t.vin| && t.vin[i].isCoinbase
  }

  ghost function ReceivedAt(leq: (string, string) -> bool, t: Tx, addr: string, n: nat): seq<Transfer>
    requires n < |t.vout|
  {
    if t.vout[n].addr != Some(addr) then []
    else if IsMint(t) || TotalIn(t.vin) == 0 then [Row(t, n * IDX_BAND, COINBASE, addr, t.vout[n].value)]
    else
      var senders := Sort(Payers(t.vin), leq);
      RowsOfOutput(t, addr, n, senders, |senders|)
  }

  ghost function ReceivedRows(leq: (string, string) -> bool, t: Tx, addr: string, n: nat): seq<Transfer>
    requires n <= |t.vout|
  {
    if n == 0 then [] else ReceivedRows(leq, t, addr, n - 1) + ReceivedAt(leq, t, addr, n - 1)
  }

  ghost function View(leq: (string, string) -> bool, t: Tx, addr: string, dir: Direction): seq<Transfer> {
    if dir.Incoming? then ReceivedRows(leq, t, addr, |t.vout|)
    else if addr in Payers(t.vin) && TotalIn(t.vin) > 0 then SentRows(t, addr, |t.vout|)
    else []
  }

  // ---- the loops ----

  /** A JavaScript Map keeps insertion order: order lists the keys of inputs. */
  ghost predicate Collected(vin: seq<Vin>, inputs: map<string, nat>, order: seq<string>, total: nat) {
    && order == Payers(vin) && total == TotalIn(vin)
    && (forall a :: a in inputs <==> a in order)
    && (forall a :: a in inputs ==> inputs[a] == InputSum(vin, a))
    && (forall a :: a !in inputs ==> InputSum(vin, a) == 0)
  }

  method CollectInputs(t: Tx) returns (inputs: map<string, nat>, order: seq<string>, totalIn: nat)
    ensures Collected(t.vin, inputs, order, totalIn)
  {
    inputs, order, totalIn := map[], [], 0;
    for i := 0 to |t.vin|
      invariant Collected(t.vin[..i], inputs, order, totalIn)
    {
      var v := t.vin[i];
      assert t.vin[..i + 1][..i] == t.vin[..i];
      if v.prevout.Some? && v.prevout.value.addr.Some? {
        var a := v.prevout.value.addr.value;
        if a !in inputs {
          order := order + [a];
        }
        inputs := inputs[a := (if a in inputs then inputs[a] else 0) + v.prevout.value.value];
        totalIn := totalIn + v.prevout.value.value;
      }
    }
    assert t.vin[..|t.vin|] == t.vin;
  }

  method TransfersOf(leq: (string, string) -> bool, t: Tx, addr: string, dir: Direction) returns (out: seq<Transfer>)
    ensures out == View(leq, t, addr, dir)
  {
    hide Payers, TotalIn, InputSum, Sort, FormatUnits;
    var inputs, order, totalIn := CollectInputs(t);
    out := [];
    if dir.Outgoing? {
      if addr !in inputs || totalIn == 0 {
        return;
      }
      var mine := inputs[addr];
      for n := 0 to |t.vout|
        invariant out == SentRows(t, addr, n)
      {
        var o := t.vout[n];
        if o.addr.None? || o.addr.value == addr {
          continue;
        }
        out := out + [Row(t, n * IDX_BAND, addr, o.addr.value, Share(o.value, mine, totalIn))];
      }
      return;
    }
    for n := 0 to |t.vout|
      invariant out == ReceivedRows(leq, t, addr, n)
    {
      var rows := ReceiveOutput(leq, t, addr, n, inputs, order, totalIn);
      out := out + rows;
    }
  }

  method ReceiveOutput(leq: (string, string) -> bool, t: Tx, addr: string, n: nat,
                       inputs: map<string, nat>, order: seq<string>, totalIn: nat)
    returns (rows: seq<Transfer>)
    requires n < |t.vout| && Collected(t.vin, inputs, order, totalIn)
    ensures rows == ReceivedAt(leq, t, addr, n)
  {
    hide Payers, TotalIn, InputSum, Sort, FormatUnits;
    rows := [];
    var o := t.vout[n];
    if o.addr != Some(addr) {
      return;
    }
    if IsMint(t) || totalIn == 0 {
      return [Row(t, n * IDX_BAND, COINBASE, addr, o.value)];
    }
    var senders := Sort(order, leq);
    SortMultiset(order, leq);
    for rank := 0 to |senders|
      invariant rows == RowsOfOutput(t, addr, n, senders, rank)
    {
      var from := senders[rank];
      if from == addr {
        continue;
      }
      assert from in inputs by {
        assert from in multiset(senders);
      }
      rows := rows + [Row(t, n * IDX_BAND + rank, from, addr, Share(o.value, inputs[from], totalIn))];
    }
  }

  // ---- rounding down loses less than one satoshi per sender, and creates none ----

  ghost function SumShares(vin: seq<Vin>, value: nat, total: nat, senders: seq<string>): nat
    requires total > 0
  {
    if senders == [] then 0
    else
      var k := |senders| - 1;
      SumShares(vin, value, total, senders[..k]) + Share(value, InputSum(vin, senders[k]), total)
  }

  ghost function SumInputs(vin: seq<Vin>, senders: seq<string>): nat {
    if senders == [] then 0 else SumInputs(vin, senders[..|senders| - 1]) + InputSum(vin, senders[|senders| - 1])
  }

  lemma ShareBounds(value: nat, sum: nat, total: nat)
    requires total > 0
    ensures total * Share(value, sum, total) <= value * sum <= total * Share(value, sum, total) + total - 1
  {
    var p := value * sum;
    assert p == total * (p / total) + p % total;
  }

  lemma {:induction false} SharesBound(vin: seq<Vin>, value: nat, total: nat, senders: seq<string>)
    requires total > 0
    ensures total * SumShares(vin, value, total, senders) <= value * SumInputs(vin, senders)
    ensures value * SumInputs(vin, senders) <= total * SumShares(vin, value, total, senders) + |senders| * (total - 1)
  {
    hide Share, InputSum;
    if senders != [] {
      var k := |senders| - 1;
      SharesBound(vin, value, total, senders[..k]);
      ShareBounds(value, InputSum(vin, senders[k]), total);
      OneMoreShare(value, total, k, SumShares(vin, value, total, senders[..k]), SumInputs(vin, senders[..k]),
                   Share(value, InputSum(vin, senders[k]), total), InputSum(vin, senders[k]));
    }
  }

  lemma OneMoreShare(value: nat, total: nat, k: nat, f: nat, p: nat, g: nat, q: nat)
    requires total > 0
    requires total * f <= value * p <= total * f + k * (total - 1)
    requires total * g <= value * q <= total * g + total - 1
    ensures total * (f + g) <= value * (p + q) <= total * (f + g) + (k + 1) * (total - 1)
  {
    assert total * (f + g) == total * f + total * g;
    assert value * (p + q) == value * p + value * q;
    assert (k + 1) * (total - 1) == k * (total - 1) + (total - 1);
  }

  lemma {:induction false} SumInputsAdds(vin: seq<Vin>, v: Vin, senders: seq<string>)
    requires forall i, j :: 0 <= i < j < |senders| ==> senders[i] != senders[j]
    ensures SumInputs(vin + [v], senders) ==
      SumInputs(vin, senders) + if HasPayer(v) && v.prevout.value.addr.value in senders then v.prevout.value.value else 0
  {
    if senders != [] {
      var k := |senders| - 1;
      SumInputsAdds(vin, v, senders[..k]);
      assert (vin + [v])[..|vin|] == vin;
      assert senders == senders[..k] + [senders[k]];
    }
  }

  lemma {:induction false} SumInputsNone(senders: seq<string>)
    ensures SumInputs([], senders) == 0
  {
    if senders != [] {
      SumInputsNone(senders[..|senders| - 1]);
    }
  }

  /** The parts are a partition: over distinct addresses that cover all payers they add up to the whole. */
  lemma {:induction false} PartsMakeTotal(vin: seq<Vin>, senders: seq<string>)
    requires forall i, j :: 0 <= i < j < |senders| ==> senders[i] != senders[j]
    requires forall i :: 0 <= i < |vin| && HasPayer(vin[i]) ==> vin[i].prevout.value.addr.value in senders
    ensures SumInputs(vin, senders) == TotalIn(vin)
  {
    if vin == [] {
      SumInputsNone(senders);
    } else {
      var k := |vin| - 1;
      PartsMakeTotal(vin[..k], senders);
      SumInputsAdds(vin[..k], vin[k], senders);
      assert vin == vin[..k] + [vin[k]];
    }
  }

  lemma {:induction false} PayersExactly(vin: seq<Vin>)
    ensures forall i, j :: 0 <= i < j < |Payers(vin)| ==> Payers(vin)[i] != Payers(vin)[j]
    ensures forall i :: 0 <= i < |vin| && HasPayer(vin[i]) ==> vin[i].prevout.value.addr.value in Payers(vin)
    ensures TotalIn(vin) > 0 ==> Payers(vin) != []
  {
    if vin != [] {
      PayersExactly(vin[..|vin| - 1]);
    }
  }

  lemma SendersExactly(leq: (string, string) -> bool, vin: seq<Vin>)
    ensures var senders := Sort(Payers(vin), leq);
      && |senders| == |Payers(vin)|
      && (forall a :: a in senders <==> a in Payers(vin))
      && (forall i, j :: 0 <= i < j < |senders| ==> senders[i] != senders[j])
      && SumInputs(vin, senders) == TotalIn(vin)
  {
    var senders := Sort(Payers(vin), leq);
    SortMultiset(Payers(vin), leq);
    PayersExactly(vin);
    forall a
      ensures a in senders <==> a in Payers(vin)
    {
      assert a in multiset(senders) <==> a in multiset(Payers(vin));
    }
    BagDistinct(Payers(vin), senders);
    PartsMakeTotal(vin, senders);
  }

  ghost function AmountSum(rows: seq<Transfer>): int {
    if rows == [] then 0 else AmountSum(rows[..|rows| - 1]) + ReadUnits(rows[|rows| - 1].amount, DECIMALS)
  }

  lemma AmountAdds(rows: seq<Transfer>, t: Tx, idx: nat, from: string, to: string, sats: nat)
    ensures AmountSum(rows + [Row(t, idx, from, to, sats)]) == AmountSum(rows) + sats
  {
    var r := Row(t, idx, from, to, sats);
    assert (rows + [r])[..|rows|] == rows;
    FormatReadsBack(sats, DECIMALS);
  }

  /** The rows of an output print all shares but the receiver's own. */
  lemma {:induction false} RowsSum(t: Tx, addr: string, n: nat, senders: seq<string>, k: nat)
    requires n < |t.vout| && k <= |senders| && TotalIn(t.vin) > 0
    requires forall i, j :: 0 <= i < j < |senders| ==> senders[i] != senders[j]
    ensures var own := if addr in senders[..k] then Share(t.vout[n].value, InputSum(t.vin, addr), TotalIn(t.vin)) else 0;
      AmountSum(RowsOfOutput(t, addr, n, senders, k)) + own == SumShares(t.vin, t.vout[n].value, TotalIn(t.vin), senders[..k])
  {
    hide Share, InputSum, TotalIn, Row, AmountSum;
    if k == 0 {
      NoAmount();
    } else {
      RowsSum(t, addr, n, senders, k - 1);
      var from := senders[k - 1];
      assert senders[..k][..k - 1] == senders[..k - 1] && senders[..k] == senders[..k - 1] + [from];
      AmountAdds(RowsOfOutput(t, addr, n, senders, k - 1), t, n * IDX_BAND + k - 1, from, addr,
                 Share(t.vout[n].value, InputSum(t.vin, from), TotalIn(t.vin)));
    }
  }

  lemma BoundsOfWhole(value: nat, total: nat, f: nat, k: nat)
    requires total > 0 && k > 0
    requires total * f <= value * total <= total * f + k * (total - 1)
    ensures value - k < f <= value
  {
    assert total * (value + 1) == value * total + total;
    CancelFactor(total, f, value + 1);
    assert total * (value - k) == value * total - k * total;
    assert k * (total - 1) == k * total - k;
    CancelFactor(total, value - k, f);
  }

  lemma CancelFactor(total: nat, a: int, b: int)
    requires total * a < total * b
    ensures a < b
  {
    assert total * (b - a) == total * b - total * a;
  }

  /**
    * The printed rows of an output, with what its receiver paid to itself, never exceed the output
    * and miss less than one satoshi per paying address.
    */
  lemma OutputIsSplit(leq: (string, string) -> bool, t: Tx, addr: string, n: nat)
    requires n < |t.vout| && t.vout[n].addr == Some(addr) && !IsMint(t) && TotalIn(t.vin) > 0
    ensures var value := t.vout[n].value;
      var change := Share(value, InputSum(t.vin, addr), TotalIn(t.vin));
      var own := if addr in Payers(t.vin) then change else 0;
      value - |Payers(t.vin)| < AmountSum(ReceivedAt(leq, t, addr, n)) + own <= value
  {
    hide Share, InputSum, TotalIn, Payers, Sort, AmountSum, RowsOfOutput, SumShares;
    var senders := Sort(Payers(t.vin), leq);
    var value, total := t.vout[n].value, TotalIn(t.vin);
    SendersExactly(leq, t.vin);
    PayersExactly(t.vin);
    assert senders[..|senders|] == senders;
    RowsSum(t, addr, n, senders, |senders|);
    SharesBound(t.vin, value, total, senders);
    BoundsOfWhole(value, total, SumShares(t.vin, value, total, senders), |senders|);
  }

  ghost function OutputSum(vout: seq<Vout>): nat {
    if vout == [] then 0 else OutputSum(vout[..|vout| - 1]) + vout[|vout| - 1].value
  }

  /** What a transaction pays to addresses other than addr, and in how many outputs. */
  ghost function PaidAway(vout: seq<Vout>, addr: string): nat {
    if vout == [] then 0
    else
      var rest, o := PaidAway(vout[..|vout| - 1], addr), vout[|vout| - 1];
      if o.addr.Some? && o.addr != Some(addr) then rest + o.value else rest
  }

  ghost function CountAway(vout: seq<Vout>, addr: string): nat {
    if vout == [] then 0
    else
      var rest, o := CountAway(vout[..|vout| - 1], addr), vout[|vout| - 1];
      if o.addr.Some? && o.addr != Some(addr) then rest + 1 else rest
  }

  lemma {:induction false} AwayWithin(vout: seq<Vout>, addr: string)
    ensures PaidAway(vout, addr) <= OutputSum(vout)
  {
    if vout != [] {
      AwayWithin(vout[..|vout| - 1], addr);
    }
  }

  lemma {:induction false} SentBounds(t: Tx, addr: string, n: nat)
    requires n <= |t.vout| && TotalIn(t.vin) > 0
    ensures var total, rows := TotalIn(t.vin), AmountSum(SentRows(t, addr, n));
      var owed := InputSum(t.vin, addr) * PaidAway(t.vout[..n], addr);
      0 <= rows && total * rows <= owed <= total * rows + CountAway(t.vout[..n], addr) * (total - 1)
  {
    hide Share, InputSum, TotalIn, Row, AmountSum;
    if n == 0 {
      NoAmount();
    } else {
      SentBounds(t, addr, n - 1);
      assert t.vout[..n][..n - 1] == t.vout[..n - 1];
      var o, sum, total := t.vout[n - 1], InputSum(t.vin, addr), TotalIn(t.vin);
      if o.addr.Some? && o.addr != Some(addr) {
        ShareBounds(o.value, sum, total);
        OneMoreShare(sum, total, CountAway(t.vout[..n - 1], addr), AmountSum(SentRows(t, addr, n - 1)), PaidAway(t.vout[..n - 1], addr),
                     Share(o.value, sum, total), o.value);
        AmountAdds(SentRows(t, addr, n - 1), t, (n - 1) * IDX_BAND, addr, o.addr.value, Share(o.value, sum, total));
      }
    }
  }

  /** A sender's rows add up to its part of what is paid to others, rounded down output by output. */
  lemma SenderBounds(leq: (string, string) -> bool, t: Tx, addr: string)
    requires addr in Payers(t.vin) && TotalIn(t.vin) > 0
    ensures var total, rows := TotalIn(t.vin), AmountSum(View(leq, t, addr, Outgoing));
      var owed := InputSum(t.vin, addr) * PaidAway(t.vout, addr);
      0 <= rows && total * rows <= owed <= total * rows + CountAway(t.vout, addr) * (total - 1)
  {
    hide InputSum, TotalIn, AmountSum, SentRows, PaidAway, CountAway, Payers;
    SentBounds(t, addr, |t.vout|);
    assert t.vout[..|t.vout|] == t.vout;
  }

  ghost predicate Bounded(leq: (string, string) -> bool, t: Tx, addr: string) {
    AmountSum(View(leq, t, addr, Outgoing)) <= InputSum(t.vin, addr)
  }

  lemma EmptyIsBounded(leq: (string, string) -> bool, t: Tx, addr: string)
    requires addr !in Payers(t.vin) || TotalIn(t.vin) == 0
    ensures Bounded(leq, t, addr)
  {
    assert View(leq, t, addr, Outgoing) == [];
    NoAmount();
  }

  /** A sender's rows never exceed what it paid in, as long as the inputs that have an address cover what others receive. */
  lemma CoveredIsBounded(leq: (string, string) -> bool, t: Tx, addr: string)
    requires PaidAway(t.vout, addr) <= TotalIn(t.vin)
    ensures Bounded(leq, t, addr)
  {
    hide InputSum, TotalIn, AmountSum, View, PaidAway, Payers, CountAway;
    if addr in Payers(t.vin) && TotalIn(t.vin) > 0 {
      SenderBounds(leq, t, addr);
      Cancel(TotalIn(t.vin), AmountSum(View(leq, t, addr, Outgoing)), PaidAway(t.vout, addr), InputSum(t.vin, addr));
    } else {
      EmptyIsBounded(leq, t, addr);
    }
  }

  /** What went into a transaction, from inputs with and without an address. */
  ghost function AllIn(vin: seq<Vin>): nat {
    if vin == [] then 0
    else AllIn(vin[..|vin| - 1]) + if vin[|vin| - 1].prevout.Some? then vin[|vin| - 1].prevout.value.value else 0
  }

  lemma {:induction false} AllHavePayers(vin: seq<Vin>)
    requires forall i :: 0 <= i < |vin| && vin[i].prevout.Some? ==> HasPayer(vin[i])
    ensures TotalIn(vin) == AllIn(vin)
  {
    if vin != [] {
      AllHavePayers(vin[..|vin| - 1]);
    }
  }

  /** So it holds of every transaction that creates no money and whose inputs all have an address. */
  lemma SenderIsBounded(leq: (string, string) -> bool, t: Tx, addr: string)
    requires OutputSum(t.vout) <= AllIn(t.vin)
    requires forall i :: 0 <= i < |t.vin| && t.vin[i].prevout.Some? ==> HasPayer(t.vin[i])
    ensures Bounded(leq, t, addr)
  {
    hide Bounded;
    AllHavePayers(t.vin);
    AwayWithin(t.vout, addr);
    CoveredIsBounded(leq, t, addr);
  }

  /** For a sole payer it holds exactly when its input covers what others receive; all of that is credited to it. */
  lemma SolePayerIff(leq: (string, string) -> bool, t: Tx, addr: string)
    requires Payers(t.vin) == [addr]
    ensures TotalIn(t.vin) > 0 ==> AmountSum(View(leq, t, addr, Outgoing)) == PaidAway(t.vout, addr)
    ensures Bounded(leq, t, addr) <==> TotalIn(t.vin) == 0 || PaidAway(t.vout, addr) <= TotalIn(t.vin)
  {
    hide AmountSum, View, PaidAway, CountAway, InputSum, TotalIn;
    SolePayerPaysAll(t.vin, addr);
    if TotalIn(t.vin) == 0 {
      EmptyIsBounded(leq, t, addr);
    } else {
      SoleRows(t, addr, |t.vout|);
      assert t.vout[..|t.vout|] == t.vout;
      assert View(leq, t, addr, Outgoing) == SentRows(t, addr, |t.vout|) by {
        ViewOfSender(leq, t, addr);
      }
    }
  }

  lemma ViewOfSender(leq: (string, string) -> bool, t: Tx, addr: string)
    requires addr in Payers(t.vin) && TotalIn(t.vin) > 0
    ensures View(leq, t, addr, Outgoing) == SentRows(t, addr, |t.vout|)
  {
  }

  lemma SolePayerPaysAll(vin: seq<Vin>, addr: string)
    requires Payers(vin) == [addr]
    ensures InputSum(vin, addr) == TotalIn(vin)
  {
    PayersExactly(vin);
    PartsMakeTotal(vin, [addr]);
    assert [addr][..0] == [];
    assert SumInputs(vin, []) == 0;
  }

  lemma {:induction false} SoleRows(t: Tx, addr: string, n: nat)
    requires n <= |t.vout| && TotalIn(t.vin) > 0 && InputSum(t.vin, addr) == TotalIn(t.vin)
    ensures AmountSum(SentRows(t, addr, n)) == PaidAway(t.vout[..n], addr)
  {
    hide InputSum, TotalIn, Row, AmountSum, Share;
    if n == 0 {
      NoAmount();
    } else {
      SoleRows(t, addr, n - 1);
      assert t.vout[..n][..n - 1] == t.vout[..n - 1];
      var o, total := t.vout[n - 1], TotalIn(t.vin);
      if o.addr.Some? && o.addr != Some(addr) {
        WholeShare(o.value, total);
        AmountAdds(SentRows(t, addr, n - 1), t, (n - 1) * IDX_BAND, addr, o.addr.value, o.value);
      }
    }
  }

  lemma WholeShare(value: nat, total: nat)
    requires total > 0
    ensures Share(value, total, total) == value
  {
    ShareBounds(value, total, total);
    var f := Share(value, total, total);
    BoundsOfWhole(value, total, f, 1);
  }

  /** With more payers it is broken once a payer's part of what others receive exceeds what it paid by the possible roundings. */
  lemma BeyondIsBroken(leq: (string, string) -> bool, t: Tx, addr: string)
    requires addr in Payers(t.vin) && TotalIn(t.vin) > 0
    requires InputSum(t.vin, addr) * PaidAway(t.vout, addr) > TotalIn(t.vin) * (InputSum(t.vin, addr) + CountAway(t.vout, addr))
    ensures !Bounded(leq, t, addr)
  {
    hide InputSum, TotalIn, AmountSum, View, PaidAway, CountAway, Payers;
    SenderBounds(leq, t, addr);
    var total, sum, k, rows := TotalIn(t.vin), InputSum(t.vin, addr), CountAway(t.vout, addr), AmountSum(View(leq, t, addr, Outgoing));
    assert total * (sum + k) == total * sum + total * k;
    assert k * (total - 1) == total * k - k;
    CancelFactor(total, sum, rows);
  }

  /** A transaction that creates no money: an input without an address carries 100, A adds 1, and B receives 90. */
  function UnaddressedInput(): Tx {
    Tx("tx", [Vin(Some(Prevout(None, 100)), false), Vin(Some(Prevout(Some("A"), 1)), false)], [Vout(Some("B"), 90)], 0)
  }

  /** A paid 1, and its view says 90. */
  lemma UnaddressedInputBreaks(leq: (string, string) -> bool)
    ensures var t := UnaddressedInput();
      && OutputSum(t.vout) <= AllIn(t.vin) && InputSum(t.vin, "A") == 1
      && AmountSum(View(leq, t, "A", Outgoing)) == 90 && !Bounded(leq, t, "A")
  {
    hide View, AmountSum;
    var t := UnaddressedInput();
    var one, two := t.vin[0], t.vin[1];
    assert t.vin[..1] == [one] && [one][..0] == [];
    assert AllIn([one]) == 100 && TotalIn([one]) == 0 && InputSum([one], "A") == 0 && Payers([one]) == [];
    assert t.vout[..0] == [];
    assert PaidAway([], "A") == 0 && OutputSum([]) == 0;
    SolePayerIff(leq, t, "A");
  }

  lemma NoAmount()
    ensures AmountSum([]) == 0
  {
  }

  lemma Cancel(total: nat, rows: int, outs: nat, sum: nat)
    requires total > 0 && outs <= total && total * rows <= outs * sum
    ensures rows <= sum
  {
    assert outs * sum <= total * sum;
    assert total * (sum + 1) == total * sum + total;
    CancelFactor(total, rows, sum + 1);
  }

  // ---- both ends of a payment see the same amount ----

  lemma {:induction false} SentRow(t: Tx, addr: string, k: nat, n: nat, to: string)
    requires n < |t.vout| && k <= |t.vout| && TotalIn(t.vin) > 0 && t.vout[n].addr == Some(to) && to != addr
    ensures forall r :: r in SentRows(t, addr, k) && r.idx == n * IDX_BAND ==>
      k > n && r == Row(t, n * IDX_BAND, addr, to, Share(t.vout[n].value, InputSum(t.vin, addr), TotalIn(t.vin)))
    ensures k > n ==>
      Row(t, n * IDX_BAND, addr, to, Share(t.vout[n].value, InputSum(t.vin, addr), TotalIn(t.vin))) in SentRows(t, addr, k)
  {
    hide Share, InputSum, TotalIn, FormatUnits;
    if k > 0 {
      SentRow(t, addr, k - 1, n, to);
    }
  }

  lemma {:induction false} ReceivedRow(t: Tx, addr: string, n: nat, senders: seq<string>, k: nat, p: nat)
    requires n < |t.vout| && k <= |senders| && p < |senders| && TotalIn(t.vin) > 0 && senders[p] != addr
    requires forall i, j :: 0 <= i < j < |senders| ==> senders[i] != senders[j]
    ensures forall r :: r in RowsOfOutput(t, addr, n, senders, k) && r.from == senders[p] ==>
      k > p && r == Row(t, n * IDX_BAND + p, senders[p], addr, Share(t.vout[n].value, InputSum(t.vin, senders[p]), TotalIn(t.vin)))
    ensures k > p ==>
      Row(t, n * IDX_BAND + p, senders[p], addr, Share(t.vout[n].value, InputSum(t.vin, senders[p]), TotalIn(t.vin)))
      in RowsOfOutput(t, addr, n, senders, k)
  {
    hide Share, InputSum, TotalIn, FormatUnits;
    if k > 0 {
      ReceivedRow(t, addr, n, senders, k - 1, p);
    }
  }

  /**
    * A payer and the receiver of an output each hold exactly one row for it, with the same amount;
    * the two rows carry the same idx only when the payer sorts first among all payers.
    */
  lemma ViewsAgree(leq: (string, string) -> bool, t: Tx, payer: string, payee: string, n: nat)
    returns (sent: Transfer, received: Transfer)
    requires n < |t.vout| && t.vout[n].addr == Some(payee) && payer != payee && payer in Payers(t.vin)
    requires !IsMint(t) && TotalIn(t.vin) > 0
    ensures forall r :: r in View(leq, t, payer, Outgoing) && r.idx == n * IDX_BAND <==> r == sent
    ensures forall r :: r in ReceivedAt(leq, t, payee, n) && r.from == payer <==> r == received
    ensures sent.amount == received.amount && sent.from == received.from == payer && sent.to == received.to == payee
    ensures sent.idx == received.idx <==> Sort(Payers(t.vin), leq)[..1] == [payer]
  {
    hide Share, InputSum, TotalIn, FormatUnits, Payers, Sort, SentRows, RowsOfOutput;
    var senders := Sort(Payers(t.vin), leq);
    SendersExactly(leq, t.vin);
    var p :| 0 <= p < |senders| && senders[p] == payer;
    var x := Share(t.vout[n].value, InputSum(t.vin, payer), TotalIn(t.vin));
    sent := Row(t, n * IDX_BAND, payer, payee, x);
    received := Row(t, n * IDX_BAND + p, payer, payee, x);
    SentRow(t, payer, |t.vout|, n, payee);
    ReceivedRow(t, payee, n, senders, |senders|, p);
    assert senders[..1] == [senders[0]];
  }

  // ---- (txHash, idx) inside one view ----

  /** Every row has its own idx, and all lie below a bound. */
  ghost predicate Ascending(rows: seq<Transfer>, below: int) {
    && (forall i :: 0 <= i < |rows| ==> rows[i].idx < below)
    && (forall i, j :: 0 <= i < j < |rows| ==> rows[i].idx < rows[j].idx)
  }

  lemma {:induction false} SentAscending(t: Tx, addr: string, n: nat)
    requires n <= |t.vout| && TotalIn(t.vin) > 0
    ensures Ascending(SentRows(t, addr, n), n * IDX_BAND)
  {
    hide Share, InputSum, TotalIn, FormatUnits;
    if n > 0 {
      SentAscending(t, addr, n - 1);
    }
  }

  lemma {:induction false} OutputAscending(t: Tx, addr: string, n: nat, senders: seq<string>, k: nat)
    requires n < |t.vout| && k <= |senders| && TotalIn(t.vin) > 0
    ensures Ascending(RowsOfOutput(t, addr, n, senders, k), n * IDX_BAND + k)
    ensures forall r :: r in RowsOfOutput(t, addr, n, senders, k) ==> r.idx >= n * IDX_BAND
  {
    hide Share, InputSum, TotalIn, FormatUnits;
    if k > 0 {
      OutputAscending(t, addr, n, senders, k - 1);
    }
  }

  ghost predicate DistinctIdx(rows: seq<Transfer>) {
    forall i, j :: 0 <= i < j < |rows| ==> rows[i].idx != rows[j].idx
  }

  ghost predicate HasIdx(rows: seq<Transfer>, x: int) {
    exists r :: r in rows && r.idx == x
  }

  /** Output m pays addr, and p is the rank of a payer it gets a row for: any but addr itself, or 0 where coins are minted. */
  ghost predicate Pays(leq: (string, string) -> bool, t: Tx, addr: string, m: nat, p: nat) {
    m < |t.vout| && t.vout[m].addr == Some(addr) &&
    if IsMint(t) || TotalIn(t.vin) == 0 then p == 0
    else
      var senders := Sort(Payers(t.vin), leq);
      p < |senders| && senders[p] != addr
  }

  /** Two outputs to addr whose bands of idx overlap where both have a row. */
  ghost predicate BandsClash(leq: (string, string) -> bool, t: Tx, addr: string, n: nat) {
    exists a: nat, p: nat, b: nat, q: nat ::
      a < b < n && Pays(leq, t, addr, a, p) && Pays(leq, t, addr, b, q) && a * IDX_BAND + p == b * IDX_BAND + q
  }

  lemma {:induction false} RowsHaveRanks(t: Tx, addr: string, n: nat, senders: seq<string>, k: nat, r: Transfer)
    requires n < |t.vout| && k <= |senders| && TotalIn(t.vin) > 0 && r in RowsOfOutput(t, addr, n, senders, k)
    ensures exists p: nat :: p < k && senders[p] != addr && r.idx == n * IDX_BAND + p
  {
    hide Share, InputSum, TotalIn, FormatUnits;
    if r in RowsOfOutput(t, addr, n, senders, k - 1) {
      RowsHaveRanks(t, addr, n, senders, k - 1, r);
    }
  }

  lemma RanksOfRows(t: Tx, addr: string, n: nat, senders: seq<string>, x: int)
    requires n < |t.vout| && TotalIn(t.vin) > 0 && forall i, j :: 0 <= i < j < |senders| ==> senders[i] != senders[j]
    ensures HasIdx(RowsOfOutput(t, addr, n, senders, |senders|), x)
       <==> exists p: nat :: p < |senders| && senders[p] != addr && x == n * IDX_BAND + p
  {
    hide Share, InputSum, TotalIn, FormatUnits, RowsOfOutput;
    var rows := RowsOfOutput(t, addr, n, senders, |senders|);
    if r :| r in rows && r.idx == x {
      RowsHaveRanks(t, addr, n, senders, |senders|, r);
    }
    if p: nat :| p < |senders| && senders[p] != addr && x == n * IDX_BAND + p {
      ReceivedRow(t, addr, n, senders, |senders|, p);
    }
  }

  /** The rows of one output: one for every rank it pays, in ascending order. */
  lemma RowsAt(leq: (string, string) -> bool, t: Tx, addr: string, n: nat)
    requires n < |t.vout|
    ensures DistinctIdx(ReceivedAt(leq, t, addr, n))
    ensures forall x :: HasIdx(ReceivedAt(leq, t, addr, n), x) <==> exists p: nat :: Pays(leq, t, addr, n, p) && x == n * IDX_BAND + p
  {
    hide Share, InputSum, TotalIn, FormatUnits, Payers, Sort, RowsOfOutput, HasIdx;
    var senders := Sort(Payers(t.vin), leq);
    SendersExactly(leq, t.vin);
    if t.vout[n].addr == Some(addr) && !IsMint(t) && TotalIn(t.vin) > 0 {
      OutputAscending(t, addr, n, senders, |senders|);
      forall x
        ensures HasIdx(ReceivedAt(leq, t, addr, n), x) <==> exists p: nat :: Pays(leq, t, addr, n, p) && x == n * IDX_BAND + p
      {
        RanksOfRows(t, addr, n, senders, x);
        assert forall p: nat :: Pays(leq, t, addr, n, p) <==> p < |senders| && senders[p] != addr;
      }
    } else {
      OneRowOrNone(leq, t, addr, n);
    }
  }

  lemma OneRowOrNone(leq: (string, string) -> bool, t: Tx, addr: string, n: nat)
    requires n < |t.vout| && (t.vout[n].addr != Some(addr) || IsMint(t) || TotalIn(t.vin) == 0)
    ensures DistinctIdx(ReceivedAt(leq, t, addr, n))
    ensures forall x :: HasIdx(ReceivedAt(leq, t, addr, n), x) <==> exists p: nat :: Pays(leq, t, addr, n, p) && x == n * IDX_BAND + p
  {
    hide FormatUnits, Payers, Sort, RowsOfOutput, IsMint, TotalIn;
    if t.vout[n].addr == Some(addr) {
      assert Pays(leq, t, addr, n, 0);
      assert ReceivedAt(leq, t, addr, n)[0] in ReceivedAt(leq, t, addr, n);
    }
  }

  lemma {:induction false} ReceivedRanks(leq: (string, string) -> bool, t: Tx, addr: string, n: nat, x: int)
    requires n <= |t.vout|
    ensures HasIdx(ReceivedRows(leq, t, addr, n), x)
       <==> exists m: nat, p: nat :: m < n && Pays(leq, t, addr, m, p) && x == m * IDX_BAND + p
  {
    hide Pays, ReceivedAt;
    if n > 0 {
      ReceivedRanks(leq, t, addr, n - 1, x);
      RowsAt(leq, t, addr, n - 1);
      assert HasIdx(ReceivedRows(leq, t, addr, n), x) <==>
        HasIdx(ReceivedRows(leq, t, addr, n - 1), x) || HasIdx(ReceivedAt(leq, t, addr, n - 1), x);
    }
  }

  /** Output b clashes with one before it. */
  ghost predicate ClashesBefore(leq: (string, string) -> bool, t: Tx, addr: string, b: nat) {
    exists a: nat, p: nat, q: nat ::
      a < b && Pays(leq, t, addr, a, p) && Pays(leq, t, addr, b, q) && a * IDX_BAND + p == b * IDX_BAND + q
  }

  lemma ClashGrows(leq: (string, string) -> bool, t: Tx, addr: string, n: nat)
    ensures BandsClash(leq, t, addr, n + 1) <==> BandsClash(leq, t, addr, n) || ClashesBefore(leq, t, addr, n)
  {
    hide Pays;
  }

  lemma ClashIsShared(leq: (string, string) -> bool, t: Tx, addr: string, n: nat)
    requires n < |t.vout|
    ensures ClashesBefore(leq, t, addr, n) <==> exists x :: HasIdx(ReceivedRows(leq, t, addr, n), x) && HasIdx(ReceivedAt(leq, t, addr, n), x)
  {
    hide Pays, ReceivedAt, ReceivedRows, HasIdx;
    RowsAt(leq, t, addr, n);
    if x :| HasIdx(ReceivedRows(leq, t, addr, n), x) && HasIdx(ReceivedAt(leq, t, addr, n), x) {
      ReceivedRanks(leq, t, addr, n, x);
    }
    if ClashesBefore(leq, t, addr, n) {
      var m: nat, p: nat, q: nat :|
        m < n && Pays(leq, t, addr, m, p) && Pays(leq, t, addr, n, q) && m * IDX_BAND + p == n * IDX_BAND + q;
      ReceivedRanks(leq, t, addr, n, n * IDX_BAND + q);
      assert HasIdx(ReceivedAt(leq, t, addr, n), n * IDX_BAND + q);
    }
  }

  lemma {:induction false} ReceivedDistinct(leq: (string, string) -> bool, t: Tx, addr: string, n: nat)
    requires n <= |t.vout|
    ensures DistinctIdx(ReceivedRows(leq, t, addr, n)) <==> !BandsClash(leq, t, addr, n)
  {
    hide ReceivedAt, ClashesBefore, BandsClash, DistinctIdx;
    if n == 0 {
      NothingClashes(leq, t, addr);
    } else {
      ReceivedDistinct(leq, t, addr, n - 1);
      RowsAt(leq, t, addr, n - 1);
      ClashGrows(leq, t, addr, n - 1);
      ClashIsShared(leq, t, addr, n - 1);
      JoinDistinct(ReceivedRows(leq, t, addr, n - 1), ReceivedAt(leq, t, addr, n - 1));
    }
  }

  lemma NothingClashes(leq: (string, string) -> bool, t: Tx, addr: string)
    ensures !BandsClash(leq, t, addr, 0) && DistinctIdx([])
  {
  }

  lemma JoinDistinct(a: seq<Transfer>, b: seq<Transfer>)
    requires DistinctIdx(b)
    ensures DistinctIdx(a + b) <==> DistinctIdx(a) && !exists x :: HasIdx(a, x) && HasIdx(b, x)
  {
    var rows := a + b;
    if DistinctIdx(rows) {
      forall i, j | 0 <= i < |a| && 0 <= j < |b|
        ensures a[i].idx != b[j].idx
      {
        assert rows[i] == a[i] && rows[|a| + j] == b[j];
      }
      forall i, j | 0 <= i < j < |a|
        ensures a[i].idx != a[j].idx
      {
        assert rows[i] == a[i] && rows[j] == a[j];
      }
    } else if DistinctIdx(a) {
      var i, j :| 0 <= i < j < |rows| && rows[i].idx == rows[j].idx;
      assert HasIdx(a, a[i].idx) && HasIdx(b, b[j - |a|].idx);
    }
  }

  /** A receiver's view uses no idx twice if and only if no two of its outputs clash; a sender's view never does. */
  lemma IdxUniqueIff(leq: (string, string) -> bool, t: Tx, addr: string)
    ensures DistinctIdx(View(leq, t, addr, Incoming)) <==> !BandsClash(leq, t, addr, |t.vout|)
    ensures DistinctIdx(View(leq, t, addr, Outgoing))
  {
    hide Payers, TotalIn, SentRows, ReceivedRows, Pays;
    ReceivedDistinct(leq, t, addr, |t.vout|);
    if addr in Payers(t.vin) && TotalIn(t.vin) > 0 {
      SentAscending(t, addr, |t.vout|);
    }
  }

  /** So up to a thousand payers no view does, nor one with a single output. */
  lemma IdxUnique(leq: (string, string) -> bool, t: Tx, addr: string, dir: Direction)
    requires dir.Outgoing? || |Payers(t.vin)| <= IDX_BAND || forall m, n :: 0 <= m < n < |t.vout| ==> t.vout[m].addr != Some(addr) || t.vout[n].addr != Some(addr)
    ensures DistinctIdx(View(leq, t, addr, dir))
  {
    hide Payers, TotalIn, View;
    IdxUniqueIff(leq, t, addr);
    SortMultiset(Payers(t.vin), leq);
  }

  /** And beyond, the thousand-and-first payer's row of an output clashes with the first payer's row of the next. */
  lemma IdxCollides(leq: (string, string) -> bool, t: Tx, addr: string, n: nat)
    requires n + 1 < |t.vout| && t.vout[n].addr == t.vout[n + 1].addr == Some(addr)
    requires !IsMint(t) && TotalIn(t.vin) > 0
    requires var senders := Sort(Payers(t.vin), leq); |senders| > IDX_BAND && senders[0] != addr && senders[IDX_BAND] != addr
    ensures !DistinctIdx(View(leq, t, addr, Incoming))
  {
    hide Payers, TotalIn, View, Sort;
    IdxUniqueIff(leq, t, addr);
    assert Pays(leq, t, addr, n, IDX_BAND) && Pays(leq, t, addr, n + 1, 0);
  }

  // ---- the rows of the two views, one by one ----

  /** x moves so many satoshi of output n, printed in BTC with eight decimals. */
  predicate IsRow(t: Tx, x: Transfer, from: string, to: string, sats: nat) {
    && x == Transfer(t.txid, x.idx, from, to, "BTC", x.amount, None, t.ts)
    && ReadUnits(x.amount, 8) == sats
  }

  lemma RowIs(t: Tx, idx: nat, from: string, to: string, sats: nat)
    ensures IsRow(t, Row(t, idx, from, to, sats), from, to, sats) && Row(t, idx, from, to, sats).idx == idx
  {
    FormatReadsBack(sats, DECIMALS);
  }

  /** The n-th output goes to somebody else, and x is addr's part of it. */
  ghost predicate SendsAt(t: Tx, addr: string, n: nat, x: Transfer)
    requires TotalIn(t.vin) > 0
  {
    n < |t.vout| && t.vout[n].addr.Some? && t.vout[n].addr.value != addr && x.idx == n * 1000 &&
    IsRow(t, x, addr, t.vout[n].addr.value, t.vout[n].value * InputSum(t.vin, addr) / TotalIn(t.vin))
  }

  /** rows go to these of the first n places, in order, and every place that is meant is among them. */
  ghost predicate ListedAt(rows: seq<Transfer>, at: seq<nat>, n: nat, meant: nat -> bool, fits: (nat, Transfer) -> bool) {
    && |at| == |rows| && (forall i, j :: 0 <= i < j < |at| ==> at[i] < at[j])
    && (forall i :: 0 <= i < |at| ==> at[i] < n && fits(at[i], rows[i]))
    && (forall m: nat :: m < n && meant(m) ==> m in at)
  }

  lemma ListedOn(rows: seq<Transfer>, at: seq<nat>, n: nat, meant: nat -> bool, fits: (nat, Transfer) -> bool, x: Transfer)
    requires ListedAt(rows, at, n, meant, fits) && fits(n, x)
    ensures ListedAt(rows + [x], at + [n], n + 1, meant, fits)
  {
    var more := at + [n];
    assert more[|at|] == n;
    assert forall m :: m in at ==> m in more;
  }

  lemma ListedPast(rows: seq<Transfer>, at: seq<nat>, n: nat, meant: nat -> bool, fits: (nat, Transfer) -> bool)
    requires ListedAt(rows, at, n, meant, fits) && !meant(n)
    ensures ListedAt(rows, at, n + 1, meant, fits)
  {
  }

  lemma NothingListed(meant: nat -> bool, fits: (nat, Transfer) -> bool)
    ensures ListedAt([], [], 0, meant, fits)
  {
  }

  /** The outputs to an address other than addr, and the rows that addr as the sender has for them. */
  ghost function ToOthers(t: Tx, addr: string): nat -> bool {
    (n: nat) => n < |t.vout| && t.vout[n].addr.Some? && t.vout[n].addr.value != addr
  }

  ghost function Sending(t: Tx, addr: string): (nat, Transfer) -> bool
    requires TotalIn(t.vin) > 0
  {
    (n: nat, x: Transfer) => SendsAt(t, addr, n, x)
  }

  /** A sender's view has one row for each output to an address other than its own, in the order of the outputs. */
  lemma {:induction false} SentExactly(t: Tx, addr: string, n: nat) returns (at: seq<nat>)
    requires n <= |t.vout| && TotalIn(t.vin) > 0
    ensures ListedAt(SentRows(t, addr, n), at, n, ToOthers(t, addr), Sending(t, addr))
  {
    hide Row, IsRow, InputSum, TotalIn, ListedAt;
    var meant, fits := ToOthers(t, addr), Sending(t, addr);
    at := [];
    NothingListed(meant, fits);
    if n > 0 {
      at := SentExactly(t, addr, n - 1);
      var o, before := t.vout[n - 1], SentRows(t, addr, n - 1);
      if o.addr.Some? && o.addr != Some(addr) {
        var sats := Share(o.value, InputSum(t.vin, addr), TotalIn(t.vin));
        RowIs(t, (n - 1) * IDX_BAND, addr, o.addr.value, sats);
        ListedOn(before, at, n - 1, meant, fits, Row(t, (n - 1) * IDX_BAND, addr, o.addr.value, sats));
        at := at + [n - 1];
      } else {
        ListedPast(before, at, n - 1, meant, fits);
      }
    }
  }

  /** The n-th output goes to addr, and x is the part of it that the payer at this place of the senders paid. */
  ghost predicate ReceivesAt(t: Tx, addr: string, n: nat, senders: seq<string>, k: nat, x: Transfer)
    requires TotalIn(t.vin) > 0
  {
    n < |t.vout| && k < |senders| && senders[k] != addr && x.idx == n * 1000 + k &&
    IsRow(t, x, senders[k], addr, t.vout[n].value * InputSum(t.vin, senders[k]) / TotalIn(t.vin))
  }

  /** The payers other than addr, and the rows that addr has for them. */
  ghost function OtherPayers(senders: seq<string>, addr: string): nat -> bool {
    (k: nat) => k < |senders| && senders[k] != addr
  }

  ghost function Receiving(t: Tx, addr: string, n: nat, senders: seq<string>): (nat, Transfer) -> bool
    requires TotalIn(t.vin) > 0
  {
    (k: nat, x: Transfer) => ReceivesAt(t, addr, n, senders, k, x)
  }

  lemma {:induction false} PartsExactly(t: Tx, addr: string, n: nat, senders: seq<string>, k: nat) returns (at: seq<nat>)
    requires n < |t.vout| && k <= |senders| && TotalIn(t.vin) > 0
    ensures ListedAt(RowsOfOutput(t, addr, n, senders, k), at, k, OtherPayers(senders, addr), Receiving(t, addr, n, senders))
  {
    hide Row, IsRow, InputSum, TotalIn, ListedAt;
    var meant, fits := OtherPayers(senders, addr), Receiving(t, addr, n, senders);
    at := [];
    NothingListed(meant, fits);
    if k > 0 {
      at := PartsExactly(t, addr, n, senders, k - 1);
      var before, from := RowsOfOutput(t, addr, n, senders, k - 1), senders[k - 1];
      if from != addr {
        var sats := Share(t.vout[n].value, InputSum(t.vin, from), TotalIn(t.vin));
        RowIs(t, n * IDX_BAND + k - 1, from, addr, sats);
        ListedOn(before, at, k - 1, meant, fits, Row(t, n * IDX_BAND + k - 1, from, addr, sats));
        at := at + [k - 1];
      } else {
        ListedPast(before, at, k - 1, meant, fits);
      }
    }
  }

  /** What a receiver gets from one output: nothing from one that is not its own; the whole of it, from "coinbase", where
      the coins are new or nobody with an address paid; else one row for every other payer. */
  lemma ReceivedExactly(leq: (string, string) -> bool, t: Tx, addr: string, n: nat) returns (at: seq<nat>)
    requires n < |t.vout|
    ensures var rows, senders := ReceivedAt(leq, t, addr, n), Sort(Payers(t.vin), leq);
      if t.vout[n].addr != Some(addr) then rows == []
      else if (exists v :: v in t.vin && v.isCoinbase) || TotalIn(t.vin) == 0 then
        |rows| == 1 && IsRow(t, rows[0], "coinbase", addr, t.vout[n].value) && rows[0].idx == n * 1000
      else ListedAt(rows, at, |senders|, OtherPayers(senders, addr), Receiving(t, addr, n, senders))
  {
    hide Row, IsRow, InputSum, TotalIn, RowsOfOutput, Payers, Sort, ListedAt;
    at := [];
    assert IsMint(t) <==> exists v :: v in t.vin && v.isCoinbase;
    if t.vout[n].addr == Some(addr) {
      if IsMint(t) || TotalIn(t.vin) == 0 {
        RowIs(t, n * IDX_BAND, COINBASE, addr, t.vout[n].value);
      } else {
        var senders := Sort(Payers(t.vin), leq);
        at := PartsExactly(t, addr, n, senders, |senders|);
      }
    }
  }
}
