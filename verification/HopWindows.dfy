// apps/api/src/mule/hopMath.ts, rules/fanOut.ts and detect.ts: sliding windows over an address's hops.
module HopWindows {
  import opened Wrappers
  import opened Sequences

  datatype Hop = Hop(txHash: string, toAddr: string, ts: int)

  const HOUR_MS := 3_600_000
  const MINUTE_MS := 60_000

  // ---- burstTxPerHour ----

  function Times(hops: seq<Hop>): (r: seq<int>)
    ensures |r| == |hops|
  {
    seq(|hops|, i requires 0 <= i < |hops| => hops[i].ts)
  }

  predicate AtMost(a: int, b: int) {
    a <= b
  }

  /** How many of the times fall into [lo, hi]. */
  function CountIn(times: seq<int>, lo: int, hi: int): nat {
    if times == [] then 0
    else
      var inside := lo <= times[|times| - 1] <= hi;
      CountIn(times[..|times| - 1], lo, hi) + if inside then 1 else 0
  }

  lemma {:induction false} InsertCount(s: seq<int>, x: int, lo: int, hi: int)
    ensures CountIn(Insert(s, x, AtMost), lo, hi) == CountIn(s, lo, hi) + if lo <= x <= hi then 1 else 0
  {
    if s == [] || AtMost(s[|s| - 1], x) {
      assert (s + [x])[..|s|] == s;
    } else {
      var r := Insert(s[..|s| - 1], x, AtMost);
      InsertCount(s[..|s| - 1], x, lo, hi);
      assert (r + [s[|s| - 1]])[..|r|] == r;
    }
  }

  lemma {:induction false} SortCount(s: seq<int>, lo: int, hi: int)
    ensures CountIn(Sort(s, AtMost), lo, hi) == CountIn(s, lo, hi)
  {
    if s != [] {
      SortCount(s[..|s| - 1], lo, hi);
      InsertCount(Sort(s[..|s| - 1], AtMost), s[|s| - 1], lo, hi);
    }
  }

  ghost predicate Ascending(s: seq<int>) {
    forall i, j :: 0 <= i <= j < |s| ==> s[i] <= s[j]
  }

  lemma {:induction false} CountAtMost(s: seq<int>, lo: int, hi: int, a: nat)
    requires a <= |s| && forall i :: 0 <= i < a ==> s[i] < lo
    ensures CountIn(s, lo, hi) <= |s| - a
  {
    if s != [] {
      CountAtMost(s[..|s| - 1], lo, hi, if a < |s| then a else a - 1);
    }
  }

  lemma {:induction false} CountAtLeast(s: seq<int>, lo: int, hi: int, i: nat, j: nat)
    requires i <= j < |s| && forall k :: i <= k <= j ==> lo <= s[k] <= hi
    ensures CountIn(s, lo, hi) >= j - i + 1
  {
    if j < |s| - 1 {
      CountAtLeast(s[..|s| - 1], lo, hi, i, j);
    } else if i < j {
      CountAtLeast(s[..|s| - 1], lo, hi, i, j - 1);
    }
  }

  /** No stretch of the ascending list that spans at most `span` is longer than max. */
  ghost predicate StretchesWithin(s: seq<int>, span: int, max: nat) {
    forall i, j :: 0 <= i <= j < |s| && s[j] - s[i] <= span ==> j - i + 1 <= max
  }

  lemma {:induction false} WindowWithin(s: seq<int>, span: int, max: nat, lo: int)
    requires Ascending(s) && StretchesWithin(s, span, max)
    ensures CountIn(s, lo, lo + span) <= max
  {
    if s != [] {
      var k := |s| - 1;
      if lo <= s[k] <= lo + span {
        var a := FirstFrom(s, lo);
        CountAtMost(s, lo, lo + span, a);
      } else {
        WindowWithin(s[..k], span, max, lo);
      }
    }
  }

  lemma {:induction false} FirstFrom(s: seq<int>, lo: int) returns (a: nat)
    requires Ascending(s) && s != [] && s[|s| - 1] >= lo
    ensures a < |s| && s[a] >= lo && forall i :: 0 <= i < a ==> s[i] < lo
  {
    var k := |s| - 1;
    if k > 0 && s[k - 1] >= lo {
      a := FirstFrom(s[..k], lo);
    } else {
      a := k;
    }
  }

  /** How many of the hops fall into the hour that starts at lo. */
  function HourCount(hops: seq<Hop>, lo: int): nat {
    CountIn(Times(hops), lo, lo + HOUR_MS)
  }

  /** The peak number of transactions in any window of one hour. */
  method BurstTxPerHour(hops: seq<Hop>) returns (max: nat)
    ensures forall lo :: HourCount(hops, lo) <= max
    ensures hops == [] ==> max == 0
    ensures hops != [] ==> exists lo :: HourCount(hops, lo) == max
  {
    hide Sort, CountIn, StretchesWithin, Ascending;
    var times := Sort(Times(hops), AtMost);
    TimesSorted(Times(hops));
    ghost var i, j;
    max, i, j := PeakStretch(times);
    forall lo
      ensures HourCount(hops, lo) <= max
    {
      WindowWithin(times, HOUR_MS, max, lo);
      SortCount(Times(hops), lo, lo + HOUR_MS);
    }
    if hops != [] {
      StretchCount(times, i, j);
      SortCount(Times(hops), times[i], times[i] + HOUR_MS);
      assert HourCount(hops, times[i]) == max;
    }
  }

  lemma StretchCount(times: seq<int>, i: nat, j: nat)
    requires Ascending(times) && i <= j < |times| && times[j] - times[i] <= HOUR_MS
    ensures CountIn(times, times[i], times[i] + HOUR_MS) >= j - i + 1
  {
    CountAtLeast(times, times[i], times[i] + HOUR_MS, i, j);
  }

  /** The sliding window: the longest stretch of an ascending list that spans at most an hour is i..j. */
  method PeakStretch(times: seq<int>) returns (max: nat, ghost i: nat, ghost j: nat)
    requires Ascending(times)
    ensures StretchesWithin(times, HOUR_MS, max)
    ensures if times == [] then max == 0 else i <= j < |times| && max == j - i + 1 && times[j] - times[i] <= HOUR_MS
  {
    max, i, j := 0, 0, 0;
    var left := 0;
    for right := 0 to |times|
      invariant 0 <= left <= right
      invariant forall k :: 0 <= k < left && right < |times| ==> times[right] - times[k] > HOUR_MS
      invariant forall a, b :: 0 <= a <= b < right && times[b] - times[a] <= HOUR_MS ==> b - a + 1 <= max
      invariant if right == 0 then max == 0 else i <= j < right && max == j - i + 1 && times[j] - times[i] <= HOUR_MS
    {
      while times[right] - times[left] > HOUR_MS
        invariant 0 <= left <= right
        invariant forall k :: 0 <= k < left ==> times[right] - times[k] > HOUR_MS
        decreases right - left
      {
        left := left + 1;
      }
      if right - left + 1 > max {
        max := right - left + 1;
        i, j := left, right;
      }
    }
  }

  lemma TimesSorted(s: seq<int>)
    ensures Ascending(Sort(s, AtMost)) && |Sort(s, AtMost)| == |s|
  {
    hide Sort;
    SortSorts(s, AtMost);
    SortMultiset(s, AtMost);
    assert |multiset(Sort(s, AtMost))| == |Sort(s, AtMost)| && |multiset(s)| == |s|;
    forall i, j | 0 <= i <= j < |Sort(s, AtMost)|
      ensures Sort(s, AtMost)[i] <= Sort(s, AtMost)[j]
    {
      if i < j {
        assert AtMost(Sort(s, AtMost)[i], Sort(s, AtMost)[j]);
      }
    }
  }

  // ---- fan-out ----

  /** The distinct recipients of outbound hops strictly after the inbound hop and within the window. */
  function Recipients(inHop: Hop, outbound: seq<Hop>, windowMinutes: int): set<string> {
    set o | o in outbound && inHop.ts < o.ts <= inHop.ts + windowMinutes * MINUTE_MS :: o.toAddr
  }

  function FanOutOf(inHop: Hop, outbound: seq<Hop>, windowMinutes: int): nat {
    |Recipients(inHop, outbound, windowMinutes)|
  }

  method FanOut1h(inbound: seq<Hop>, outbound: seq<Hop>, windowMinutes: int) returns (max: nat)
    ensures forall h :: h in inbound ==> FanOutOf(h, outbound, windowMinutes) <= max
    ensures max == 0 || exists h :: h in inbound && FanOutOf(h, outbound, windowMinutes) == max
  {
    max := 0;
    for i := 0 to |inbound|
      invariant forall k :: 0 <= k < i ==> FanOutOf(inbound[k], outbound, windowMinutes) <= max
      invariant max == 0 || exists h :: h in inbound && FanOutOf(h, outbound, windowMinutes) == max
    {
      var size := FanOutOf(inbound[i], outbound, windowMinutes);
      if size > max {
        max := size;
        assert inbound[i] in inbound;
      }
    }
  }

  datatype Match = Match(triggerTxHash: string, distinctRecipients: nat)

  /** One match per inbound hop whose fan-out reaches the threshold, in inbound order. */
  function Matches(inbound: seq<Hop>, outbound: seq<Hop>, windowMinutes: int, minDistinct: int): seq<Match> {
    if inbound == [] then []
    else
      var k := |inbound| - 1;
      var before := Matches(inbound[..k], outbound, windowMinutes, minDistinct);
      var size := FanOutOf(inbound[k], outbound, windowMinutes);
      if size < minDistinct then before else before + [Match(inbound[k].txHash, size)]
  }

  method DetectFanOut(inbound: seq<Hop>, outbound: seq<Hop>, windowMinutes: int, minDistinct: int) returns (matches: seq<Match>)
    ensures matches == Matches(inbound, outbound, windowMinutes, minDistinct)
  {
    matches := [];
    for i := 0 to |inbound|
      invariant matches == Matches(inbound[..i], outbound, windowMinutes, minDistinct)
    {
      assert inbound[..i + 1][..i] == inbound[..i];
      var size := FanOutOf(inbound[i], outbound, windowMinutes);
      if size < minDistinct {
        continue;
      }
      matches := matches + [Match(inbound[i].txHash, size)];
    }
    assert inbound[..|inbound|] == inbound;
  }

  /** matches[i] has the greatest fan-out, and no earlier one has as much. */
  ghost predicate FirstGreatest(matches: seq<Match>, i: nat) {
    && i < |matches|
    && (forall k :: 0 <= k < |matches| ==> matches[k].distinctRecipients <= matches[i].distinctRecipients)
    && (forall k :: 0 <= k < i ==> matches[k].distinctRecipients < matches[i].distinctRecipients)
  }

  method Strongest(matches: seq<Match>) returns (r: Option<Match>)
    ensures r.None? <==> matches == []
    ensures r.Some? ==> exists i: nat :: FirstGreatest(matches, i) && matches[i] == r.value
  {
    if matches == [] {
      return None;
    }
    var best := 0;
    for i := 1 to |matches|
      invariant best < i
      invariant forall k :: 0 <= k < i ==> matches[k].distinctRecipients <= matches[best].distinctRecipients
      invariant forall k :: 0 <= k < best ==> matches[k].distinctRecipients < matches[best].distinctRecipients
    {
      if matches[i].distinctRecipients > matches[best].distinctRecipients {
        best := i;
      }
    }
    assert FirstGreatest(matches, best);
    return Some(matches[best]);
  }

  ghost predicate Fires(h: Hop, outbound: seq<Hop>, windowMinutes: int, minDistinct: int, m: Match) {
    m == Match(h.txHash, FanOutOf(h, outbound, windowMinutes)) && m.distinctRecipients >= minDistinct
  }

  lemma {:induction false} MatchFor(inbound: seq<Hop>, outbound: seq<Hop>, windowMinutes: int, minDistinct: int, h: Hop, m: Match)
    requires h in inbound && Fires(h, outbound, windowMinutes, minDistinct, m)
    ensures m in Matches(inbound, outbound, windowMinutes, minDistinct)
  {
    hide FanOutOf;
    var k := |inbound| - 1;
    if h != inbound[k] {
      MatchFor(inbound[..k], outbound, windowMinutes, minDistinct, h, m);
    }
  }

  lemma {:induction false} HopFor(inbound: seq<Hop>, outbound: seq<Hop>, windowMinutes: int, minDistinct: int, m: Match) returns (h: Hop)
    requires m in Matches(inbound, outbound, windowMinutes, minDistinct)
    ensures h in inbound && Fires(h, outbound, windowMinutes, minDistinct, m)
  {
    hide FanOutOf;
    var k := |inbound| - 1;
    if m in Matches(inbound[..k], outbound, windowMinutes, minDistinct) {
      h := HopFor(inbound[..k], outbound, windowMinutes, minDistinct, m);
    } else {
      h := inbound[k];
    }
  }

  /** The greatest fan-out of any inbound hop, 0 when there is none. */
  ghost predicate IsFanOut(inbound: seq<Hop>, outbound: seq<Hop>, windowMinutes: int, max: nat) {
    && (forall h :: h in inbound ==> FanOutOf(h, outbound, windowMinutes) <= max)
    && (max == 0 || exists h :: h in inbound && FanOutOf(h, outbound, windowMinutes) == max)
  }

  /** A match of greatest fan-out, or none when the rule does not fire. */
  ghost predicate IsBest(inbound: seq<Hop>, outbound: seq<Hop>, windowMinutes: int, minDistinct: int, best: Option<Match>) {
    var ms := Matches(inbound, outbound, windowMinutes, minDistinct);
    (best.None? <==> ms == []) &&
    (best.Some? ==> best.value in ms && forall m :: m in ms ==> m.distinctRecipients <= best.value.distinctRecipients)
  }

  /** The rule fires exactly when there is an inbound hop and the fan-out in its own window reaches the minimum, and its
      strongest match reports that fan-out. */
  lemma RuleFires(inbound: seq<Hop>, outbound: seq<Hop>, windowMinutes: int, minDistinct: int, fanOut: nat, best: Option<Match>)
    requires IsFanOut(inbound, outbound, windowMinutes, fanOut) && IsBest(inbound, outbound, windowMinutes, minDistinct, best)
    ensures best.Some? <==> inbound != [] && fanOut >= minDistinct
    ensures best.Some? ==> best.value.distinctRecipients == fanOut
  {
    hide FanOutOf;
    if inbound != [] && fanOut >= minDistinct {
      var h := Widest(inbound, outbound, windowMinutes, fanOut);
      MatchFor(inbound, outbound, windowMinutes, minDistinct, h, Match(h.txHash, fanOut));
    }
    if best.Some? {
      var h := HopFor(inbound, outbound, windowMinutes, minDistinct, best.value);
    }
  }

  lemma Wider(h: Hop, outbound: seq<Hop>, w: int, v: int)
    requires w <= v
    ensures FanOutOf(h, outbound, w) <= FanOutOf(h, outbound, v)
  {
    assert Recipients(h, outbound, w) <= Recipients(h, outbound, v);
    Subset(Recipients(h, outbound, w), Recipients(h, outbound, v));
  }

  lemma {:induction false} Subset<T>(a: set<T>, b: set<T>)
    requires a <= b
    ensures |a| <= |b|
  {
    if x :| x in a {
      Subset(a - {x}, b - {x});
    }
  }

  lemma FanOutGrows(inbound: seq<Hop>, outbound: seq<Hop>, w: int, v: int, narrow: nat, wide: nat)
    requires w <= v && IsFanOut(inbound, outbound, w, narrow) && IsFanOut(inbound, outbound, v, wide)
    ensures narrow <= wide
  {
    hide FanOutOf;
    if h :| h in inbound && FanOutOf(h, outbound, w) == narrow {
      Wider(h, outbound, w, v);
    }
  }

  /** The window fan_out_1h is computed with, whatever the rule is configured to. */
  const FEATURE_MINUTES := 60

  /**
    * fan_out_1h always looks at sixty minutes, the rule at its configured window. At sixty they agree for every minimum;
    * a shorter window only misses, a longer one only adds; and they differ exactly when the minimum lies between the two.
    */
  lemma RuleAgreesWithFeature(inbound: seq<Hop>, outbound: seq<Hop>, windowMinutes: int, minDistinct: int,
                              feature: nat, fanOut: nat, best: Option<Match>)
    requires IsFanOut(inbound, outbound, FEATURE_MINUTES, feature) && IsFanOut(inbound, outbound, windowMinutes, fanOut)
    requires IsBest(inbound, outbound, windowMinutes, minDistinct, best)
    ensures windowMinutes == FEATURE_MINUTES ==>
      (best.Some? <==> inbound != [] && feature >= minDistinct) && (best.Some? ==> best.value.distinctRecipients == feature)
    ensures windowMinutes <= FEATURE_MINUTES && best.Some? ==> feature >= minDistinct && best.value.distinctRecipients <= feature
    ensures windowMinutes >= FEATURE_MINUTES && inbound != [] && feature >= minDistinct ==>
      best.Some? && best.value.distinctRecipients >= feature
    ensures inbound != [] ==>
      ((best.Some? <==> feature >= minDistinct) <==> !(fanOut < minDistinct <= feature) && !(feature < minDistinct <= fanOut))
  {
    hide IsFanOut, IsBest;
    RuleFires(inbound, outbound, windowMinutes, minDistinct, fanOut, best);
    if windowMinutes <= FEATURE_MINUTES {
      FanOutGrows(inbound, outbound, windowMinutes, FEATURE_MINUTES, fanOut, feature);
    }
    if windowMinutes >= FEATURE_MINUTES {
      FanOutGrows(inbound, outbound, FEATURE_MINUTES, windowMinutes, feature, fanOut);
    }
  }

  lemma Widest(inbound: seq<Hop>, outbound: seq<Hop>, windowMinutes: int, fanOut: nat) returns (h: Hop)
    requires inbound != [] && forall h :: h in inbound ==> FanOutOf(h, outbound, windowMinutes) <= fanOut
    requires fanOut == 0 || exists h :: h in inbound && FanOutOf(h, outbound, windowMinutes) == fanOut
    ensures h in inbound && FanOutOf(h, outbound, windowMinutes) == fanOut
  {
    hide FanOutOf;
    if fanOut == 0 {
      h := inbound[0];
    } else {
      h :| h in inbound && FanOutOf(h, outbound, windowMinutes) == fanOut;
    }
  }

  // ---- what is counted ----

  /** The hops within one hour from lo on, both ends included, are as many as HourCount says. */
  lemma {:induction false} HourCountIs(hops: seq<Hop>, lo: int)
    ensures HourCount(hops, lo) == |Places(hops, (h: Hop) => lo <= h.ts <= lo + 60 * 60 * 1000)|
  {
    hide Places;
    var within := (h: Hop) => lo <= h.ts <= lo + 60 * 60 * 1000;
    if hops == [] {
      NoPlaces(hops, within);
    } else {
      var n := |hops| - 1;
      HourCountIs(hops[..n], lo);
      assert Times(hops)[..n] == Times(hops[..n]);
      PlacesGrow(hops, within);
    }
  }

  /** Outbound hops to different addresses, each after the inbound hop and at most so many minutes later. */
  ghost predicate Spread(inHop: Hop, outbound: seq<Hop>, windowMinutes: int, sent: seq<Hop>) {
    && (forall i :: 0 <= i < |sent| ==> sent[i] in outbound && inHop.ts < sent[i].ts && sent[i].ts - inHop.ts <= windowMinutes * 60 * 1000)
    && (forall i, j :: 0 <= i < j < |sent| ==> sent[i].toAddr != sent[j].toAddr)
  }

  lemma {:induction false} SpreadOf(inHop: Hop, outbound: seq<Hop>, windowMinutes: int, among: set<string>) returns (sent: seq<Hop>)
    requires among <= Recipients(inHop, outbound, windowMinutes)
    ensures |sent| == |among| && Spread(inHop, outbound, windowMinutes, sent) && forall i :: 0 <= i < |sent| ==> sent[i].toAddr in among
    decreases |among|
  {
    sent := [];
    if among != {} {
      var a :| a in among;
      var o :| o in outbound && inHop.ts < o.ts <= inHop.ts + windowMinutes * MINUTE_MS && o.toAddr == a;
      sent := SpreadOf(inHop, outbound, windowMinutes, among - {a});
      sent := sent + [o];
    }
  }

  lemma {:induction false} SpreadWithin(inHop: Hop, outbound: seq<Hop>, windowMinutes: int, sent: seq<Hop>)
    requires Spread(inHop, outbound, windowMinutes, sent)
    ensures |set h | h in sent :: h.toAddr| == |sent|
    ensures (set h | h in sent :: h.toAddr) <= Recipients(inHop, outbound, windowMinutes)
  {
    if sent != [] {
      var n := |sent| - 1;
      SpreadWithin(inHop, outbound, windowMinutes, sent[..n]);
      var before := set h | h in sent[..n] :: h.toAddr;
      assert sent == sent[..n] + [sent[n]];
      assert (set h | h in sent :: h.toAddr) == before + {sent[n].toAddr};
      assert sent[n] in outbound;
    }
  }

  /** The fan-out of an inbound hop is the greatest number of such hops. */
  lemma FanOutIs(inHop: Hop, outbound: seq<Hop>, windowMinutes: int) returns (sent: seq<Hop>)
    ensures Spread(inHop, outbound, windowMinutes, sent) && |sent| == FanOutOf(inHop, outbound, windowMinutes)
    ensures forall more :: Spread(inHop, outbound, windowMinutes, more) ==> |more| <= FanOutOf(inHop, outbound, windowMinutes)
  {
    sent := SpreadOf(inHop, outbound, windowMinutes, Recipients(inHop, outbound, windowMinutes));
    forall more: seq<Hop> | Spread(inHop, outbound, windowMinutes, more)
      ensures |more| <= FanOutOf(inHop, outbound, windowMinutes)
    {
      SpreadWithin(inHop, outbound, windowMinutes, more);
      Subset(set h: Hop | h in more :: h.toAddr, Recipients(inHop, outbound, windowMinutes));
    }
  }
}
