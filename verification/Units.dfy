// packages/shared/src/chainTypes.ts, formatUnits: exact decimal text of an integer amount.
module Units {
  function DigitChar(d: nat): char
    requires d < 10
  {
    ('0' as int + d) as char
  }

  predicate IsDigit(c: char) {
    '0' <= c <= '9'
  }

  /** BigInt.toString of a number that is not negative. */
  function Digits(n: nat): (s: string)
    ensures s != [] && forall c :: c in s ==> IsDigit(c)
  {
    if n < 10 then [DigitChar(n)] else Digits(n / 10) + [DigitChar(n % 10)]
  }

  function Zeros(n: nat): (s: string)
    ensures |s| == n && forall c :: c in s ==> c == '0'
  {
    seq(n, _ => '0')
  }

  /** padStart(width, '0') */
  function PadStart(s: string, width: nat): string {
    if |s| < width then Zeros(width - |s|) + s else s
  }

  /** replace(/0+$/, '') */
  function StripZeros(s: string): string {
    if s != [] && s[|s| - 1] == '0' then StripZeros(s[..|s| - 1]) else s
  }

  function FormatUnits(v: int, decimals: nat): string {
    var abs := if v < 0 then -v else v;
    var s := PadStart(Digits(abs), decimals + 1);
    var text := Join(s[..|s| - decimals], StripZeros(s[|s| - decimals..]));
    if v < 0 then "-" + text else text
  }

  function Join(whole: string, frac: string): string {
    if frac != [] then whole + "." + frac else whole
  }

  // ---- a reader of decimal text, independent of the printer ----

  function Value(s: string): int {
    if s == [] then 0 else 10 * Value(s[..|s| - 1]) + (s[|s| - 1] as int - '0' as int)
  }

  /** Where the decimal point is, or the length when there is none. */
  function PointAt(s: string): (i: nat)
    ensures i <= |s| && (i < |s| ==> s[i] == '.') && forall k :: 0 <= k < i ==> s[k] != '.'
  {
    if s == [] || s[0] == '.' then 0 else 1 + PointAt(s[1..])
  }

  /** The number of units in unsigned text; more places than the unit has are dropped. */
  function ReadUnsigned(s: string, decimals: nat): int {
    var i := PointAt(s);
    var frac := if i < |s| then s[i + 1..] else [];
    Value(s[..i] + (if |frac| <= decimals then frac + Zeros(decimals - |frac|) else frac[..decimals]))
  }

  function ReadUnits(s: string, decimals: nat): int {
    if s != [] && s[0] == '-' then -ReadUnsigned(s[1..], decimals) else ReadUnsigned(s, decimals)
  }

  lemma {:induction false} ValueOfDigits(n: nat)
    ensures Value(Digits(n)) == n
  {
    if n >= 10 {
      ValueOfDigits(n / 10);
      assert Digits(n)[..|Digits(n)| - 1] == Digits(n / 10);
    }
  }

  lemma {:induction false} ValueOfPadded(k: nat, s: string)
    ensures Value(Zeros(k) + s) == Value(s)
  {
    if s != [] {
      ValueOfPadded(k, s[..|s| - 1]);
      assert (Zeros(k) + s)[..k + |s| - 1] == Zeros(k) + s[..|s| - 1];
    } else if k > 0 {
      ValueOfPadded(k - 1, []);
      assert (Zeros(k) + [])[..k - 1] == Zeros(k - 1) + [];
    }
  }

  lemma {:induction false} StripExactly(s: string)
    ensures |StripZeros(s)| <= |s| && s == StripZeros(s) + Zeros(|s| - |StripZeros(s)|)
    ensures forall c :: c in StripZeros(s) ==> c in s
  {
    if s != [] && s[|s| - 1] == '0' {
      StripExactly(s[..|s| - 1]);
      assert s == s[..|s| - 1] + [s[|s| - 1]];
    }
  }

  ghost predicate AllDigits(s: string) {
    forall k :: 0 <= k < |s| ==> IsDigit(s[k])
  }

  /** The reader takes printed text apart where it was joined. */
  lemma PartsOf(whole: string, frac: string)
    requires AllDigits(whole)
    ensures var text := Join(whole, frac);
      && PointAt(text) == |whole| && text[..|whole|] == whole
      && (if frac == [] then |text| == |whole| else |text| == |whole| + 1 + |frac| && text[|whole| + 1..] == frac)
  {
    var text := Join(whole, frac);
    assert forall k :: 0 <= k < |whole| ==> text[k] == whole[k];
    assert |whole| < |text| ==> text[|whole|] == '.';
  }

  lemma {:induction false} ReadsBackDigits(s: string, decimals: nat)
    requires |s| > decimals && AllDigits(s)
    ensures ReadUnsigned(Join(s[..|s| - decimals], StripZeros(s[|s| - decimals..])), decimals) == Value(s)
  {
    hide Value, StripZeros, Join, Zeros, ReadUnsigned;
    var whole, tail := s[..|s| - decimals], s[|s| - decimals..];
    StripExactly(tail);
    ReadsParts(whole, StripZeros(tail), decimals);
    assert s == whole + tail;
  }

  lemma {:induction false} ReadsParts(whole: string, frac: string, decimals: nat)
    requires AllDigits(whole) && |frac| <= decimals
    ensures ReadUnsigned(Join(whole, frac), decimals) == Value(whole + (frac + Zeros(decimals - |frac|)))
  {
    hide Value, Join, PointAt, AllDigits, Zeros;
    PartsOf(whole, frac);
  }

  /** The digits FormatUnits cuts in two. */
  lemma PaddedDigits(v: nat, decimals: nat)
    ensures var s := PadStart(Digits(v), decimals + 1);
      && |s| > decimals && AllDigits(s) && Value(s) == v
      && (|s| > decimals + 1 ==> s[0] != '0')
  {
    hide Value;
    var d := Digits(v);
    ValueOfDigits(v);
    DigitsLead(v);
    if |d| < decimals + 1 {
      ValueOfPadded(decimals + 1 - |d|, d);
    }
  }

  /** No amount is changed by printing, whatever the number of decimals. */
  lemma FormatReadsBack(v: int, decimals: nat)
    ensures ReadUnits(FormatUnits(v, decimals), decimals) == v
  {
    hide Value, StripZeros, Join, PointAt, Digits, PadStart, ReadUnsigned, AllDigits;
    var abs := if v < 0 then -v else v;
    PaddedDigits(abs, decimals);
    var s := PadStart(Digits(abs), decimals + 1);
    ReadsBackDigits(s, decimals);
    var text := Join(s[..|s| - decimals], StripZeros(s[|s| - decimals..]));
    StartsWithDigit(s[..|s| - decimals], StripZeros(s[|s| - decimals..]), s);
    assert v < 0 ==> ("-" + text)[1..] == text;
  }

  lemma StartsWithDigit(whole: string, frac: string, s: string)
    requires AllDigits(s) && whole != [] && whole <= s
    ensures Join(whole, frac) != [] && IsDigit(Join(whole, frac)[0])
  {
  }

  lemma {:induction false} StripEnds(s: string)
    ensures StripZeros(s) == [] || StripZeros(s)[|StripZeros(s)| - 1] != '0'
  {
    if s != [] && s[|s| - 1] == '0' {
      StripEnds(s[..|s| - 1]);
    }
  }

  lemma {:induction false} DigitsLead(n: nat)
    ensures n > 0 ==> Digits(n)[0] != '0'
    ensures n == 0 ==> Digits(n) == "0"
  {
    if n >= 10 {
      DigitsLead(n / 10);
    }
  }

  /** The text has one form: no needless zero in front, none at the end, no bare point, and a sign only below zero. */
  lemma FormatIsCanonical(v: int, decimals: nat)
    ensures var t := FormatUnits(v, decimals);
      && t != [] && (v < 0 <==> t[0] == '-')
      && Canonical(if v < 0 then t[1..] else t, decimals)
  {
    hide Value, StripZeros, Join, PointAt, Digits, PadStart, AllDigits, Canonical;
    var abs := if v < 0 then -v else v;
    PaddedDigits(abs, decimals);
    var s := PadStart(Digits(abs), decimals + 1);
    var whole, tail := s[..|s| - decimals], s[|s| - decimals..];
    StartsWithDigit(whole, StripZeros(tail), s);
    JoinIsCanonical(s, decimals);
    var text := Join(whole, StripZeros(tail));
    assert ("-" + text)[1..] == text;
  }

  ghost predicate Canonical(u: string, decimals: nat) {
    var i := PointAt(u);
    && i > 0 && AllDigits(u[..i])
    && (i > 1 ==> u[0] != '0')
    && (i < |u| ==> i + 1 < |u| && u[|u| - 1] != '0' && |u| - i - 1 <= decimals && AllDigits(u[i + 1..]))
  }

  lemma JoinIsCanonical(s: string, decimals: nat)
    requires |s| > decimals && AllDigits(s) && (|s| > decimals + 1 ==> s[0] != '0')
    ensures Canonical(Join(s[..|s| - decimals], StripZeros(s[|s| - decimals..])), decimals)
  {
    hide PointAt, StripZeros;
    var whole, tail := s[..|s| - decimals], s[|s| - decimals..];
    StripEnds(tail);
    StripExactly(tail);
    var frac := StripZeros(tail);
    PartsOf(whole, frac);
    assert forall k :: 0 <= k < |frac| ==> frac[k] == tail[k];
  }
}
