// packages/shared/src/canonical.ts:9-12, 37-57: in which order a reader meets the members of an object, and how the smallest
// values are spelt.
module CanonicalOrder {
  import opened Wrappers
  import opened Sequences
  import opened Canonical
  import opened CanonicalProofs
  import opened CanonicalTheorems

  /** One or more members up to the closing brace, in the order of the text: each key, and the text of its value. */
  function ReadMembers(num: Numbers, t: Text): (r: Parsed<seq<(Text, Text)>>)
    ensures r.Some? ==> |r.value.1| < |t|
    decreases |t|
  {
    if t == [] || t[0] != QUOTE then None
    else
      var key := ReadString(t[1..]);
      if key.None? || key.value.1 == [] || key.value.1[0] != COLON then None
      else
        var start := key.value.1[1..];
        var value := ReadValue(num, start);
        if value.None? || value.value.1 == [] then None
        else
          var after := value.value.1;
          var own := (key.value.0, start[..|start| - |after|]);
          if after[0] == RBRACE then Some(([own], after[1..]))
          else if after[0] != COMMA then None
          else
            var rest := ReadMembers(num, after[1..]);
            if rest.None? then None else Some(([own] + rest.value.0, rest.value.1))
  }

  /** a comes before b: they agree up to some unit, where a ends or has the smaller one. */
  ghost predicate Before(a: Text, b: Text) {
    exists k: nat :: DiffersAt(a, b, k)
  }

  predicate DiffersAt(a: Text, b: Text, k: nat) {
    k <= |a| && k < |b| && a[..k] == b[..k] && (k == |a| || a[k] < b[k])
  }

  ghost predicate Ascending(met: seq<(Text, Text)>) {
    forall i, j :: 0 <= i < j < |met| ==> Before(met[i].0, met[j].0)
  }

  lemma {:induction false} SmallerIsBefore(a: Text, b: Text) returns (k: nat)
    requires LexLeq(a, b) && a != b
    ensures DiffersAt(a, b, k)
  {
    if a == [] || a[0] < b[0] {
      k := 0;
    } else {
      assert a == [a[0]] + a[1..] && b == [b[0]] + b[1..];
      k := SmallerIsBefore(a[1..], b[1..]);
      assert a[..k + 1] == [a[0]] + a[1..][..k] && b[..k + 1] == [b[0]] + b[1..][..k];
      k := k + 1;
    }
  }

  ghost function Listed(ms: seq<Member>): (r: seq<(Text, Text)>)
    requires forall m :: m in ms ==> m.text.Ok?
    ensures |r| == |ms|
  {
    seq(|ms|, i requires 0 <= i < |ms| => assert ms[i] in ms; (ms[i].key, ms[i].text.value))
  }

  lemma OneMember(num: Numbers, m: Member, j: Json, rest: Text)
    requires m.text.Ok? && Reads(num, m.text.value, j)
    ensures ReadMembers(num, MemberText(m).value + ([RBRACE] + rest)) == Some(([(m.key, m.text.value)], rest))
  {
    hide ReadString, ReadValue, MemberText, Reads;
    MemberReads(num, m, j, [RBRACE] + rest);
    ValueTextIs(m, [RBRACE] + rest);
  }

  lemma MoreMembers(num: Numbers, m: Member, j: Json, more: Text, met: seq<(Text, Text)>, rest: Text)
    requires m.text.Ok? && Reads(num, m.text.value, j) && ReadMembers(num, more) == Some((met, rest))
    ensures ReadMembers(num, MemberText(m).value + ([COMMA] + more)) == Some(([(m.key, m.text.value)] + met, rest))
  {
    hide ReadString, ReadValue, MemberText, Reads;
    MemberReads(num, m, j, [COMMA] + more);
    ValueTextIs(m, [COMMA] + more);
    assert ([COMMA] + more)[1..] == more;
  }

  lemma ValueTextIs(m: Member, rest: Text)
    requires m.text.Ok?
    ensures var start := ([COLON] + m.text.value + rest)[1..]; start[..|start| - |rest|] == m.text.value
  {
    assert ([COLON] + m.text.value + rest)[1..] == m.text.value + rest;
  }

  lemma {:induction false} MembersMet(num: Numbers, ms: seq<Member>, val: map<Text, Json>, rest: Text)
    requires |ms| > 0 && MembersRead(num, ms, val)
    ensures JoinMembers(ms).Ok?
    ensures ReadMembers(num, JoinMembers(ms).value + [RBRACE] + rest) == Some((Listed(ms), rest))
  {
    hide ReadMembers, Reads, MemberText;
    var m := ms[0];
    assert m in ms;
    MemberTextIs(m);
    if |ms| == 1 {
      OneMember(num, m, val[m.key], rest);
      assert JoinMembers(ms).value + [RBRACE] + rest == MemberText(m).value + ([RBRACE] + rest);
      assert Listed(ms) == [(m.key, m.text.value)];
    } else {
      assert forall x :: x in ms[1..] ==> x in ms;
      MembersMet(num, ms[1..], val, rest);
      var more := JoinMembers(ms[1..]).value + [RBRACE] + rest;
      MoreMembers(num, m, val[m.key], more, Listed(ms[1..]), rest);
      assert JoinMembers(ms).value + [RBRACE] + rest == MemberText(m).value + ([COMMA] + more);
      assert Listed(ms) == [(m.key, m.text.value)] + Listed(ms[1..]);
    }
  }

  /** Some property of the object is kept and printed as this key and value text. */
  ghost predicate Prints(num: Numbers, fields: seq<Field>, key: Text, text: Text) {
    exists f :: f in fields && !f.value.Undefined? && f.key == key && Serialize(num, f.value) == Ok(text)
  }

  lemma {:induction false} MemberIff(num: Numbers, fields: seq<Field>, key: Text, text: Text)
    ensures Member(key, Ok(text)) in SerializeFields(num, fields) <==> Prints(num, fields, key, text)
  {
    hide Serialize;
    if fields != [] {
      MemberIff(num, fields[1..], key, text);
      assert fields == [fields[0]] + fields[1..];
      assert forall f :: f in fields <==> f == fields[0] || f in fields[1..];
    }
  }

  lemma SortedAscend(ms: seq<Member>)
    requires DistinctMembers(ms) && forall m :: m in ms ==> m.text.Ok?
    ensures forall m :: m in Sort(ms, ByKey) ==> m.text.Ok?
    ensures Ascending(Listed(Sort(ms, ByKey)))
    ensures forall k, t :: (k, t) in Listed(Sort(ms, ByKey)) <==> Member(k, Ok(t)) in ms
  {
    hide Sort, LexLeq, Before;
    SortedMembers(ms);
    ByKeyOrders();
    SortSorts(ms, ByKey);
    SortKeepsDistinct(ms);
    var sorted := Sort(ms, ByKey);
    forall i, j | 0 <= i < j < |sorted|
      ensures Before(sorted[i].key, sorted[j].key)
    {
      assert ByKey(sorted[i], sorted[j]);
      var k := SmallerIsBefore(sorted[i].key, sorted[j].key);
      DiffersIsBefore(sorted[i].key, sorted[j].key, k);
    }
    ListedIff(sorted);
  }

  lemma DiffersIsBefore(a: Text, b: Text, k: nat)
    requires DiffersAt(a, b, k)
    ensures Before(a, b)
  {
  }

  lemma ListedIff(ms: seq<Member>)
    requires forall m :: m in ms ==> m.text.Ok?
    ensures forall k, t :: (k, t) in Listed(ms) <==> Member(k, Ok(t)) in ms
  {
    forall k, t
      ensures (k, t) in Listed(ms) <==> Member(k, Ok(t)) in ms
    {
      if (k, t) in Listed(ms) {
        var i :| 0 <= i < |ms| && Listed(ms)[i] == (k, t);
        assert ms[i] in ms && ms[i] == Member(k, Ok(t));
      }
      if Member(k, Ok(t)) in ms {
        var i :| 0 <= i < |ms| && ms[i] == Member(k, Ok(t));
        assert Listed(ms)[i] == (k, t);
      }
    }
  }

  /**
    * The text of an object is an opening brace and its members up to the closing one, which a reader meets with their keys
    * strictly ascending: each kept property once, its value in the very text it has on its own, so that this holds at every
    * level. An object without kept properties is {}.
    */
  lemma KeysAscend(num: Numbers, fields: seq<Field>) returns (met: seq<(Text, Text)>)
    requires Faithful(num) && WellFormed(Obj(fields)) && Accepted(Obj(fields))
    ensures Serialize(num, Obj(fields)).Ok?
    ensures var text := Serialize(num, Obj(fields)).value;
      if met == [] then text == [LBRACE, RBRACE]
      else text[..1] == [LBRACE] && ReadMembers(num, text[1..]) == Some((met, []))
    ensures Ascending(met)
    ensures forall k, t :: (k, t) in met <==> Prints(num, fields, k, t)
  {
    hide ReadMembers, Reads, Ascending, Prints, Serialize, JoinMembers, SerializeFields, Sort, MembersRead, DistinctMembers, Listed;
    ObjectFacts(num, fields);
    var ms := SerializeFields(num, fields);
    SortedAscend(ms);
    met := Listed(Sort(ms, ByKey));
    forall k, t
      ensures (k, t) in met <==> Prints(num, fields, k, t)
    {
      MemberIff(num, fields, k, t);
    }
    ObjectMet(num, Sort(ms, ByKey), MeaningOfFields(fields));
  }

  lemma ObjectFacts(num: Numbers, fields: seq<Field>)
    requires Faithful(num) && WellFormed(Obj(fields)) && Accepted(Obj(fields))
    ensures var ms := SerializeFields(num, fields);
      && Serialize(num, Obj(fields)) == Wrap(LBRACE, JoinMembers(Sort(ms, ByKey)), RBRACE)
      && DistinctMembers(ms) && (forall m :: m in ms ==> m.text.Ok?) && MembersRead(num, Sort(ms, ByKey), MeaningOfFields(fields))
  {
    hide Reads, JoinMembers, SerializeFields, Sort, DistinctMembers;
    FieldsRoundTrip(num, fields);
    FieldsGiveDistinct(num, fields);
    SortedMembers(SerializeFields(num, fields));
  }

  lemma ObjectMet(num: Numbers, ms: seq<Member>, val: map<Text, Json>)
    requires MembersRead(num, ms, val) && forall m :: m in ms ==> m.text.Ok?
    ensures Wrap(LBRACE, JoinMembers(ms), RBRACE).Ok?
    ensures var text := Wrap(LBRACE, JoinMembers(ms), RBRACE).value;
      if Listed(ms) == [] then text == [LBRACE, RBRACE]
      else text[..1] == [LBRACE] && ReadMembers(num, text[1..]) == Some((Listed(ms), []))
  {
    hide ReadMembers, MembersRead;
    if ms != [] {
      MembersMet(num, ms, val, []);
      var inner := JoinMembers(ms).value;
      assert ([LBRACE] + inner + [RBRACE])[1..] == inner + [RBRACE] + [];
    }
  }

  // ---- spelling ----

  /** t is this ASCII text. */
  predicate Spells(t: Text, s: string) {
    |t| == |s| && forall i :: 0 <= i < |t| ==> t[i] == s[i] as int
  }

  ghost predicate Printed(num: Numbers, v: Value, s: string) {
    Serialize(num, v).Ok? && Spells(Serialize(num, v).value, s)
  }

  lemma Words(num: Numbers)
    ensures Printed(num, Null, "null") && Printed(num, Undefined, "null")
    ensures Printed(num, Bool(true), "true") && Printed(num, Bool(false), "false")
    ensures Printed(num, Arr([]), "[]") && Printed(num, Obj([]), "{}") && Printed(num, Str([]), "\"\"")
  {
  }

  lemma EscapeOne(u: Unit)
    ensures Escape([u]) == EscapeUnit(u)
  {
    hide EscapeUnit;
    assert [u][1..] == [];
    assert EscapeUnit(u) + [] == EscapeUnit(u);
  }

  lemma ShortEscapes()
    ensures Spells(Escape([34]), "\\\"") && Spells(Escape([92]), "\\\\") && Spells(Escape([8]), "\\b") && Spells(Escape([9]), "\\t")
    ensures Spells(Escape([10]), "\\n") && Spells(Escape([12]), "\\f") && Spells(Escape([13]), "\\r")
  {
    hide Escape;
    EscapeOne(34);
    EscapeOne(92);
    EscapeOne(8);
    EscapeOne(9);
    EscapeOne(10);
    EscapeOne(12);
    EscapeOne(13);
  }

  /** Any other control character and a lone surrogate are \u and four lower-case hex digits that spell them; everything else
      stands for itself. */
  lemma OtherUnits(u: Unit)
    requires u !in [34, 92, 8, 9, 10, 12, 13]
    ensures if u < 32 || 0xD800 <= u < 0xE000
      then |Escape([u])| == 6 && Spells(Escape([u])[..2], "\\u") && LowerHex(Escape([u])[2..], u)
      else Escape([u]) == [u]
  {
    hide Escape, LowerHex;
    EscapeOne(u);
    if u < 32 || 0xD800 <= u < 0xE000 {
      HexIsLower(u);
      assert ([BACKSLASH, 117] + Hex4(u))[2..] == Hex4(u);
    }
  }

  /** The value of digits 0-9 and a-f. */
  function DigitValue(d: Unit): int {
    if 48 <= d <= 57 then d - 48 else if 97 <= d <= 102 then d - 97 + 10 else -1
  }

  predicate LowerHex(t: Text, u: Unit) {
    && |t| == 4 && (forall i :: 0 <= i < 4 ==> DigitValue(t[i]) >= 0)
    && u == DigitValue(t[0]) * 4096 + DigitValue(t[1]) * 256 + DigitValue(t[2]) * 16 + DigitValue(t[3])
  }

  lemma HexIsLower(u: Unit)
    ensures LowerHex(Hex4(u), u)
  {
    HexSum(u);
  }
}
