// The printer is undone by the reader, so canonical texts are equal exactly when the values mean the same JSON.
module CanonicalProofs {
  import opened Wrappers
  import opened Sequences
  import opened Canonical

  // ---- strings read back ----

  lemma HexDigitReads(d: int)
    requires 0 <= d < 16
    ensures FromHex(HexDigit(d)) == Some(d)
  {
  }

  lemma HexSum(u: Unit)
    ensures ((u / 4096 * 16 + u / 256 % 16) * 16 + u / 16 % 16) * 16 + u % 16 == u
  {
    var q: int := u / 16;
    var r := q / 16;
    assert r == u / 256;
    assert r / 16 == u / 4096;
  }

  lemma {:induction false} HexReads(u: Unit, rest: Text)
    ensures ReadHex4(Hex4(u) + rest) == Some(u)
  {
    hide HexDigit, FromHex;
    HexDigitReads(u / 4096);
    HexDigitReads(u / 256 % 16);
    HexDigitReads(u / 16 % 16);
    HexDigitReads(u % 16);
    HexSum(u);
  }

  lemma PlainReads(u: Unit, rest: Text)
    requires u != QUOTE && u != BACKSLASH
    ensures ReadString([u] + rest) == Prepend(u, ReadString(rest))
  {
    assert ([u] + rest)[1..] == rest;
  }

  lemma EndReads(rest: Text)
    ensures ReadString([QUOTE] + rest) == Some(([], rest))
  {
    assert ([QUOTE] + rest)[1..] == rest;
  }

  lemma {:induction false} HexEscapeReads(u: Unit, rest: Text)
    ensures ReadString([BACKSLASH, 117] + Hex4(u) + rest) == Prepend(u, ReadString(rest))
  {
    var t := [BACKSLASH, 117] + Hex4(u) + rest;
    assert t[2..] == Hex4(u) + rest && t[6..] == rest;
    HexReads(u, rest);
  }

  lemma {:induction false} UnitReads(u: Unit, rest: Text)
    ensures ReadString(EscapeUnit(u) + rest) == Prepend(u, ReadString(rest))
  {
    hide Hex4, ReadHex4;
    var e := EscapeUnit(u);
    if e == [BACKSLASH, 117] + Hex4(u) {
      HexEscapeReads(u, rest);
    } else if e == [u] {
      PlainReads(u, rest);
    } else {
      assert (e + rest)[2..] == rest;
    }
  }

  lemma PairReads(high: Unit, low: Unit, rest: Text)
    requires IsHigh(high) && IsLow(low)
    ensures ReadString([high, low] + rest) == Prepend(high, Prepend(low, ReadString(rest)))
  {
    PlainReads(low, rest);
    PlainReads(high, [low] + rest);
    assert [high, low] + rest == [high] + ([low] + rest);
  }

  lemma {:induction false} StringReads(s: Text, rest: Text)
    ensures ReadString(Escape(s) + [QUOTE] + rest) == Some((s, rest))
  {
    hide ReadString, EscapeUnit, IsHigh, IsLow;
    if s == [] {
      EndReads(rest);
      assert Escape(s) + [QUOTE] + rest == [QUOTE] + rest;
    } else if |s| >= 2 && IsHigh(s[0]) && IsLow(s[1]) {
      var tail := Escape(s[2..]) + [QUOTE] + rest;
      StringReads(s[2..], rest);
      PairReads(s[0], s[1], tail);
      assert Escape(s) + [QUOTE] + rest == [s[0], s[1]] + tail;
      assert s == [s[0]] + ([s[1]] + s[2..]);
    } else {
      var tail := Escape(s[1..]) + [QUOTE] + rest;
      StringReads(s[1..], rest);
      assert Escape(s) + [QUOTE] + rest == EscapeUnit(s[0]) + tail;
      UnitReads(s[0], tail);
      assert s == [s[0]] + s[1..];
    }
  }

  // ---- values read back ----

  predicate Delimits(rest: Text) {
    rest == [] || !IsNumberUnit(rest[0])
  }

  ghost predicate ReadsBefore(num: Numbers, t: Text, j: Json, rest: Text) {
    Delimits(rest) ==> ReadValue(num, t + rest) == Some((j, rest))
  }

  /** The reader takes t for j, whatever delimiter follows; and t cannot be mistaken for an empty array's end. */
  ghost predicate Reads(num: Numbers, t: Text, j: Json) {
    t != [] && t[0] != RBRACK && forall rest :: ReadsBefore(num, t, j, rest)
  }

  lemma {:induction false} RunStops(digits: Text, rest: Text)
    requires forall i :: 0 <= i < |digits| ==> IsNumberUnit(digits[i])
    requires Delimits(rest)
    ensures NumberRun(digits + rest) == |digits|
  {
    if digits == [] {
      assert digits + rest == rest;
    } else {
      assert (digits + rest)[1..] == digits[1..] + rest;
      RunStops(digits[1..], rest);
    }
  }

  lemma NumberReads(num: Numbers, n: int)
    requires Faithful(num)
    ensures Reads(num, num.show(n), JNum(n))
  {
    var d := num.show(n);
    assert IsNumberUnit(d[0]);
    forall rest
      ensures ReadsBefore(num, d, JNum(n), rest)
    {
      if Delimits(rest) {
        RunStops(d, rest);
        var t := d + rest;
        assert t[0] == d[0] && t[..|d|] == d && t[|d|..] == rest;
      }
    }
  }

  lemma WordReads(num: Numbers, word: Text, j: Json)
    requires (word == NULL_TEXT && j == JNull) || (word == TRUE_TEXT && j == JBool(true)) || (word == FALSE_TEXT && j == JBool(false))
    ensures Reads(num, word, j)
  {
    forall rest
      ensures ReadsBefore(num, word, j, rest)
    {
      var t := word + rest;
      assert t[0] == word[0] && t[..|word|] == word && t[|word|..] == rest;
    }
  }

  lemma QuotedReads(num: Numbers, s: Text)
    ensures Reads(num, Quote(s), JStr(s))
  {
    forall rest
      ensures ReadsBefore(num, Quote(s), JStr(s), rest)
    {
      var t := Quote(s) + rest;
      StringReads(s, rest);
      assert t[1..] == Escape(s) + [QUOTE] + rest;
      assert t[0] == QUOTE;
    }
  }

  lemma LastItem(num: Numbers, t: Text, j: Json, rest: Text)
    requires Reads(num, t, j)
    ensures ReadItems(num, t + ([RBRACK] + rest)) == Some(([j], rest))
  {
    assert ReadsBefore(num, t, j, [RBRACK] + rest);
  }

  lemma MoreItems(num: Numbers, t: Text, j: Json, more: Text, js: seq<Json>, rest: Text)
    requires Reads(num, t, j) && ReadItems(num, more) == Some((js, rest))
    ensures ReadItems(num, t + ([COMMA] + more)) == Some(([j] + js, rest))
  {
    assert ReadsBefore(num, t, j, [COMMA] + more);
    assert ([COMMA] + more)[1..] == more;
  }

  lemma {:induction false} ItemsRead(num: Numbers, parts: seq<Result<Text, Error>>, js: seq<Json>, rest: Text)
    requires |parts| == |js| > 0
    requires forall i :: 0 <= i < |parts| ==> parts[i].Ok? && Reads(num, parts[i].value, js[i])
    ensures JoinItems(parts).Ok?
    ensures ReadItems(num, JoinItems(parts).value + [RBRACK] + rest) == Some((js, rest))
    ensures |JoinItems(parts).value| > 0 && JoinItems(parts).value[0] != RBRACK
  {
    hide ReadItems;
    var text := parts[0].value;
    assert Reads(num, text, js[0]);
    if |parts| == 1 {
      LastItem(num, text, js[0], rest);
      assert text + [RBRACK] + rest == text + ([RBRACK] + rest);
      assert js == [js[0]];
    } else {
      ItemsRead(num, parts[1..], js[1..], rest);
      var more := JoinItems(parts[1..]).value + [RBRACK] + rest;
      MoreItems(num, text, js[0], more, js[1..], rest);
      assert JoinItems(parts).value + [RBRACK] + rest == text + ([COMMA] + more);
      assert js == [js[0]] + js[1..];
    }
  }

  ghost predicate MembersRead(num: Numbers, ms: seq<Member>, val: map<Text, Json>) {
    forall m :: m in ms ==> m.text.Ok? && m.key in val && Reads(num, m.text.value, val[m.key])
  }

  ghost function KeySet(ms: seq<Member>): set<Text> {
    set m | m in ms :: m.key
  }

  /** Key and value of one member, with what follows left over. */
  lemma MemberReads(num: Numbers, m: Member, j: Json, rest: Text)
    requires m.text.Ok? && Reads(num, m.text.value, j) && Delimits(rest)
    ensures var t := MemberText(m).value + rest;
      |t| > 1 && t[0] == QUOTE && ReadString(t[1..]) == Some((m.key, [COLON] + m.text.value + rest)) &&
      ReadValue(num, ([COLON] + m.text.value + rest)[1..]) == Some((j, rest))
  {
    hide ReadString, ReadValue, Escape;
    var t := MemberText(m).value + rest;
    var after := [COLON] + m.text.value + rest;
    assert t[1..] == Escape(m.key) + [QUOTE] + after;
    StringReads(m.key, after);
    assert after[1..] == m.text.value + rest;
    assert ReadsBefore(num, m.text.value, j, rest);
  }

  lemma LastField(num: Numbers, m: Member, j: Json, rest: Text)
    requires m.text.Ok? && Reads(num, m.text.value, j)
    ensures ReadFields(num, MemberText(m).value + ([RBRACE] + rest)) == Some((map[m.key := j], rest))
  {
    hide ReadString, ReadValue, MemberText, Reads;
    MemberReads(num, m, j, [RBRACE] + rest);
  }

  lemma MoreFields(num: Numbers, m: Member, j: Json, more: Text, js: map<Text, Json>, rest: Text)
    requires m.text.Ok? && Reads(num, m.text.value, j) && ReadFields(num, more) == Some((js, rest))
    ensures ReadFields(num, MemberText(m).value + ([COMMA] + more)) == Some((map[m.key := j] + js, rest))
  {
    hide ReadString, ReadValue, MemberText, Reads;
    MemberReads(num, m, j, [COMMA] + more);
    assert ([COMMA] + more)[1..] == more;
  }

  ghost function Collected(ms: seq<Member>, val: map<Text, Json>): map<Text, Json>
    requires forall m :: m in ms ==> m.key in val
  {
    if ms == [] then map[]
    else
      assert ms[0] in ms && forall x :: x in ms[1..] ==> x in ms;
      map[ms[0].key := val[ms[0].key]] + Collected(ms[1..], val)
  }

  lemma {:induction false} CollectedAll(ms: seq<Member>, val: map<Text, Json>)
    requires forall m :: m in ms ==> m.key in val
    ensures Collected(ms, val).Keys == KeySet(ms)
    ensures forall k :: k in Collected(ms, val) ==> k in val && Collected(ms, val)[k] == val[k]
  {
    if ms != [] {
      CollectedAll(ms[1..], val);
      assert ms == [ms[0]] + ms[1..];
    }
  }

  lemma MemberTextIs(m: Member)
    requires m.text.Ok?
    ensures MemberText(m).Ok? && MemberText(m).value != [] && MemberText(m).value[0] == QUOTE
  {
  }

  lemma {:induction false} FieldsRead(num: Numbers, ms: seq<Member>, val: map<Text, Json>, rest: Text)
    requires |ms| > 0 && MembersRead(num, ms, val)
    ensures JoinMembers(ms).Ok?
    ensures ReadFields(num, JoinMembers(ms).value + [RBRACE] + rest) == Some((Collected(ms, val), rest))
    ensures |JoinMembers(ms).value| > 0 && JoinMembers(ms).value[0] == QUOTE
  {
    hide ReadFields, Reads, MemberText;
    var m := ms[0];
    assert m in ms;
    MemberTextIs(m);
    var j := val[m.key];
    if |ms| == 1 {
      LastField(num, m, j, rest);
      assert JoinMembers(ms).value + [RBRACE] + rest == MemberText(m).value + ([RBRACE] + rest);
      assert Collected(ms, val) == map[m.key := j];
    } else {
      assert forall x :: x in ms[1..] ==> x in ms;
      FieldsRead(num, ms[1..], val, rest);
      var more := JoinMembers(ms[1..]).value + [RBRACE] + rest;
      MoreFields(num, m, j, more, Collected(ms[1..], val), rest);
      assert JoinMembers(ms).value + [RBRACE] + rest == MemberText(m).value + ([COMMA] + more);
    }
  }

  lemma ArrayTextReads(num: Numbers, inner: Text, js: seq<Json>, rest: Text)
    requires if js == [] then inner == [] else
      |inner| > 0 && inner[0] != RBRACK && ReadItems(num, inner + [RBRACK] + rest) == Some((js, rest))
    ensures ReadValue(num, [LBRACK] + inner + [RBRACK] + rest) == Some((JArr(js), rest))
  {
    hide ReadItems;
    var t := [LBRACK] + inner + [RBRACK] + rest;
    assert t[0] == LBRACK && t[1..] == inner + [RBRACK] + rest;
    assert !StartsWith(t, NULL_TEXT) && !StartsWith(t, TRUE_TEXT) && !StartsWith(t, FALSE_TEXT);
    if js == [] {
      assert t[1] == RBRACK && t[2..] == rest;
    } else {
      assert t[1] == inner[0];
    }
  }

  lemma ArrayReads(num: Numbers, parts: seq<Result<Text, Error>>, js: seq<Json>)
    requires |parts| == |js|
    requires forall i :: 0 <= i < |parts| ==> parts[i].Ok? && Reads(num, parts[i].value, js[i])
    ensures Wrap(LBRACK, JoinItems(parts), RBRACK).Ok?
    ensures Reads(num, Wrap(LBRACK, JoinItems(parts), RBRACK).value, JArr(js))
  {
    hide ReadItems, ReadValue;
    if parts != [] {
      ItemsRead(num, parts, js, []);
    }
    var inner := JoinItems(parts).value;
    forall rest
      ensures ReadsBefore(num, [LBRACK] + inner + [RBRACK], JArr(js), rest)
    {
      if parts != [] {
        ItemsRead(num, parts, js, rest);
      }
      ArrayTextReads(num, inner, js, rest);
    }
  }

  lemma ObjectTextReads(num: Numbers, inner: Text, js: map<Text, Json>, rest: Text)
    requires if inner == [] then js == map[] else
      inner[0] == QUOTE && ReadFields(num, inner + [RBRACE] + rest) == Some((js, rest))
    ensures ReadValue(num, [LBRACE] + inner + [RBRACE] + rest) == Some((JObj(js), rest))
  {
    hide ReadFields;
    var t := [LBRACE] + inner + [RBRACE] + rest;
    assert t[0] == LBRACE && t[1..] == inner + [RBRACE] + rest;
    assert !StartsWith(t, NULL_TEXT) && !StartsWith(t, TRUE_TEXT) && !StartsWith(t, FALSE_TEXT);
    if inner == [] {
      assert t[1] == RBRACE && t[2..] == rest;
    } else {
      assert t[1] == inner[0];
    }
  }

  lemma ObjectReads(num: Numbers, ms: seq<Member>, val: map<Text, Json>)
    requires MembersRead(num, ms, val) && KeySet(ms) == val.Keys
    ensures Wrap(LBRACE, JoinMembers(ms), RBRACE).Ok?
    ensures Reads(num, Wrap(LBRACE, JoinMembers(ms), RBRACE).value, JObj(val))
  {
    hide ReadFields, ReadValue;
    CollectedAll(ms, val);
    assert Collected(ms, val) == val;
    if ms != [] {
      FieldsRead(num, ms, val, []);
    }
    var inner := JoinMembers(ms).value;
    forall rest
      ensures ReadsBefore(num, [LBRACE] + inner + [RBRACE], JObj(val), rest)
    {
      if ms != [] {
        FieldsRead(num, ms, val, rest);
      }
      ObjectTextReads(num, inner, val, rest);
    }
  }

  lemma SortedMembers(ms: seq<Member>)
    ensures forall m :: m in Sort(ms, ByKey) <==> m in ms
    ensures KeySet(Sort(ms, ByKey)) == KeySet(ms)
  {
    SortMultiset(ms, ByKey);
    assert forall m :: m in Sort(ms, ByKey) <==> m in multiset(Sort(ms, ByKey));
    assert forall m :: m in ms <==> m in multiset(ms);
  }

  /** Every value the printer accepts reads back as what it means. */
  lemma {:induction false} RoundTrip(num: Numbers, v: Value)
    requires Faithful(num) && WellFormed(v) && Accepted(v)
    ensures Serialize(num, v).Ok?
    ensures Reads(num, Serialize(num, v).value, Meaning(v))
    decreases v
  {
    match v
    case Null => WordReads(num, NULL_TEXT, JNull);
    case Undefined => WordReads(num, NULL_TEXT, JNull);
    case Bool(b) => WordReads(num, if b then TRUE_TEXT else FALSE_TEXT, JBool(b));
    case Number(n) => NumberReads(num, n);
    case Str(s) => QuotedReads(num, s);
    case Arr(items) =>
      ItemsRoundTrip(num, items);
      ArrayReads(num, SerializeItems(num, items), Meanings(items));
    case Obj(fields) =>
      FieldsRoundTrip(num, fields);
      var ms := SerializeFields(num, fields);
      SortedMembers(ms);
      ObjectReads(num, Sort(ms, ByKey), MeaningOfFields(fields));
  }

  lemma {:induction false} ItemsRoundTrip(num: Numbers, items: seq<Value>)
    requires Faithful(num) && forall i :: 0 <= i < |items| ==> WellFormed(items[i]) && Accepted(items[i])
    ensures forall i :: 0 <= i < |items| ==>
      SerializeItems(num, items)[i].Ok? && Reads(num, SerializeItems(num, items)[i].value, Meanings(items)[i])
    decreases items
  {
    if items != [] {
      RoundTrip(num, items[0]);
      ItemsRoundTrip(num, items[1..]);
    }
  }

  lemma {:induction false} FieldsRoundTrip(num: Numbers, fields: seq<Field>)
    requires Faithful(num) && DistinctKeys(fields)
    requires forall i :: 0 <= i < |fields| ==> WellFormed(fields[i].value) && Accepted(fields[i].value)
    ensures MembersRead(num, SerializeFields(num, fields), MeaningOfFields(fields))
    ensures KeySet(SerializeFields(num, fields)) == MeaningOfFields(fields).Keys
    decreases fields
  {
    if fields != [] {
      RoundTrip(num, fields[0].value);
      FieldsRoundTrip(num, fields[1..]);
      KeysOfFields(num, fields[1..]);
      var ms := SerializeFields(num, fields[1..]);
      var first := Member(fields[0].key, Serialize(num, fields[0].value));
      assert KeySet([first] + ms) == {first.key} + KeySet(ms) by {
        assert forall m :: m in [first] + ms <==> m == first || m in ms;
      }
      forall m | m in ms
        ensures m.key != fields[0].key
      {
        var i :| 0 <= i < |fields[1..]| && fields[1..][i].key == m.key;
        assert fields[1..][i] == fields[i + 1];
      }
    }
  }

  lemma {:induction false} KeysOfFields(num: Numbers, fields: seq<Field>)
    ensures forall m :: m in SerializeFields(num, fields) ==>
      exists i :: 0 <= i < |fields| && fields[i].key == m.key && !fields[i].value.Undefined? && m.text == Serialize(num, fields[i].value)
  {
    if fields != [] {
      KeysOfFields(num, fields[1..]);
      forall m | m in SerializeFields(num, fields)
        ensures exists i :: 0 <= i < |fields| && fields[i].key == m.key && !fields[i].value.Undefined? && m.text == Serialize(num, fields[i].value)
      {
        if m in SerializeFields(num, fields[1..]) {
          var i :| 0 <= i < |fields[1..]| && fields[1..][i].key == m.key && !fields[1..][i].value.Undefined? && m.text == Serialize(num, fields[1..][i].value);
          assert fields[1..][i] == fields[i + 1];
        } else {
          assert m == Member(fields[0].key, Serialize(num, fields[0].value));
        }
      }
    }
  }
}
