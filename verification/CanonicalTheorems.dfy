// What callers of canonicalize rely on.
module CanonicalTheorems {
  import opened Wrappers
  import opened Sequences
  import opened Canonical
  import opened CanonicalProofs

  // ---- the key order ----

  lemma {:induction false} LexTotal(a: Text, b: Text)
    ensures LexLeq(a, b) || LexLeq(b, a)
    ensures LexLeq(a, b) && LexLeq(b, a) ==> a == b
  {
    if a != [] && b != [] {
      LexTotal(a[1..], b[1..]);
      if a[0] == b[0] && a[1..] == b[1..] {
        assert a == [a[0]] + a[1..] && b == [b[0]] + b[1..];
      }
    }
  }

  lemma {:induction false} LexTransitive(a: Text, b: Text, c: Text)
    requires LexLeq(a, b) && LexLeq(b, c)
    ensures LexLeq(a, c)
  {
    if a != [] && a[0] == b[0] && b[0] == c[0] {
      LexTransitive(a[1..], b[1..], c[1..]);
    }
  }

  lemma ByKeyOrders()
    ensures TotalPreorder(ByKey)
  {
    forall x: Member, y: Member
      ensures ByKey(x, y) || ByKey(y, x)
    {
      LexTotal(x.key, y.key);
    }
    forall x: Member, y: Member, z: Member | ByKey(x, y) && ByKey(y, z)
      ensures ByKey(x, z)
    {
      LexTransitive(x.key, y.key, z.key);
    }
  }

  ghost predicate DistinctMembers(ms: seq<Member>) {
    forall i, j :: 0 <= i < j < |ms| ==> ms[i].key != ms[j].key
  }

  /** Sorted by distinct keys, a set of members has one listing. */
  lemma {:induction false} OneListing(a: seq<Member>, b: seq<Member>)
    requires SortedBy(a, ByKey) && SortedBy(b, ByKey) && DistinctMembers(a) && DistinctMembers(b)
    requires forall m :: m in a <==> m in b
    ensures a == b
    decreases |a|
  {
    hide ByKey;
    SameEmptiness(a, b);
    if a != [] {
      var k, l := |a| - 1, |b| - 1;
      SameLast(a, b);
      assert a == a[..k] + [a[k]] && b == b[..l] + [b[l]];
      SameInits(a, b, a[..k], b[..l], a[k]);
      OneListing(a[..k], b[..l]);
    }
  }

  lemma SameLast(a: seq<Member>, b: seq<Member>)
    requires a != [] && b != [] && SortedBy(a, ByKey) && SortedBy(b, ByKey) && DistinctMembers(a)
    requires forall m :: m in a <==> m in b
    ensures a[|a| - 1] == b[|b| - 1]
  {
    var x, y := a[|a| - 1], b[|b| - 1];
    assert x in a && y in b;
    LastIsGreatest(b, x);
    LastIsGreatest(a, y);
    LexTotal(x.key, y.key);
    LastIsOnly(a, y);
  }

  lemma SameInits(a: seq<Member>, b: seq<Member>, a': seq<Member>, b': seq<Member>, last: Member)
    requires DistinctMembers(a) && DistinctMembers(b) && a == a' + [last] && b == b' + [last]
    requires forall m :: m in a <==> m in b
    ensures forall m :: m in a' <==> m in b'
  {
    forall m
      ensures m in a' <==> m in b'
    {
      WithoutLast(a, m);
      WithoutLast(b, m);
      assert a[..|a| - 1] == a' && b[..|b| - 1] == b';
    }
  }

  lemma SameEmptiness(a: seq<Member>, b: seq<Member>)
    requires forall m :: m in a <==> m in b
    ensures a == [] <==> b == []
  {
    assert |a| > 0 ==> a[0] in a;
    assert |b| > 0 ==> b[0] in b;
  }

  lemma LastIsGreatest(a: seq<Member>, m: Member)
    requires SortedBy(a, ByKey) && m in a
    ensures LexLeq(m.key, a[|a| - 1].key)
  {
    var i :| 0 <= i < |a| && a[i] == m;
    if i < |a| - 1 {
      assert ByKey(a[i], a[|a| - 1]);
    } else {
      LexTotal(m.key, m.key);
    }
  }

  lemma LastIsOnly(a: seq<Member>, y: Member)
    requires a != [] && DistinctMembers(a) && y in a && y.key == a[|a| - 1].key
    ensures y == a[|a| - 1]
  {
  }

  lemma WithoutLast(a: seq<Member>, m: Member)
    requires a != [] && DistinctMembers(a)
    ensures m in a[..|a| - 1] <==> m in a && m != a[|a| - 1]
  {
    assert a == a[..|a| - 1] + [a[|a| - 1]];
  }

  lemma {:induction false} FieldsGiveDistinct(num: Numbers, fields: seq<Field>)
    requires DistinctKeys(fields)
    ensures DistinctMembers(SerializeFields(num, fields))
  {
    if fields != [] {
      var rest := SerializeFields(num, fields[1..]);
      FieldsGiveDistinct(num, fields[1..]);
      KeysOfFields(num, fields[1..]);
      forall i | 0 <= i < |rest|
        ensures rest[i].key != fields[0].key
      {
        assert rest[i] in rest;
        var k :| 0 <= k < |fields[1..]| && fields[1..][k].key == rest[i].key;
        assert fields[1..][k] == fields[k + 1];
      }
    }
  }

  function KeyOfMember(m: Member): Text {
    m.key
  }

  lemma {:induction false} DistinctIsUnique(ms: seq<Member>)
    ensures DistinctMembers(ms) <==> forall k :: BagBy(ms, KeyOfMember)[k] <= 1
  {
    if ms != [] {
      var init, last := ms[..|ms| - 1], ms[|ms| - 1];
      DistinctIsUnique(init);
      BagHas(init, KeyOfMember, last.key);
      var bag := BagBy(init, KeyOfMember);
      assert BagBy(ms, KeyOfMember) == bag + multiset{last.key};
      if DistinctMembers(ms) {
        assert last.key !in bag;
      }
      if forall k :: BagBy(ms, KeyOfMember)[k] <= 1 {
        forall k
          ensures bag[k] <= 1
        {
          assert BagBy(ms, KeyOfMember)[k] <= 1;
        }
        assert BagBy(ms, KeyOfMember)[last.key] <= 1;
        forall i | 0 <= i < |init|
          ensures ms[i].key != last.key
        {
          assert init[i] in init;
        }
      }
    }
  }

  lemma SortKeepsDistinct(ms: seq<Member>)
    requires DistinctMembers(ms)
    ensures DistinctMembers(Sort(ms, ByKey))
  {
    DistinctIsUnique(ms);
    SortBag(ms, ByKey, KeyOfMember);
    DistinctIsUnique(Sort(ms, ByKey));
  }

  lemma SameListing(a: seq<Member>, b: seq<Member>)
    requires DistinctMembers(a) && DistinctMembers(b) && forall m :: m in a <==> m in b
    ensures Sort(a, ByKey) == Sort(b, ByKey)
  {
    ByKeyOrders();
    SortSorts(a, ByKey);
    SortSorts(b, ByKey);
    SortKeepsDistinct(a);
    SortKeepsDistinct(b);
    SortedMembers(a);
    SortedMembers(b);
    OneListing(Sort(a, ByKey), Sort(b, ByKey));
  }

  // ---- equal meaning, equal text ----

  lemma {:induction false} SameText(num: Numbers, a: Value, b: Value)
    requires WellFormed(a) && Accepted(a) && WellFormed(b) && Accepted(b)
    requires Meaning(a) == Meaning(b)
    ensures Serialize(num, a) == Serialize(num, b)
    decreases a
  {
    match a
    case Arr(items) =>
      assert JArr(Meanings(items)) == JArr(Meanings(b.items));
      SameItems(num, items, b.items);
    case Obj(fields) =>
      assert JObj(MeaningOfFields(fields)) == JObj(MeaningOfFields(b.fields));
      SameFields(num, fields, b.fields);
      SameFieldsBack(num, fields, b.fields);
      FieldsGiveDistinct(num, fields);
      FieldsGiveDistinct(num, b.fields);
      SameListing(SerializeFields(num, fields), SerializeFields(num, b.fields));
    case _ =>
  }

  lemma {:induction false} SameItems(num: Numbers, a: seq<Value>, b: seq<Value>)
    requires forall i :: 0 <= i < |a| ==> WellFormed(a[i]) && Accepted(a[i])
    requires forall i :: 0 <= i < |b| ==> WellFormed(b[i]) && Accepted(b[i])
    requires Meanings(a) == Meanings(b)
    ensures SerializeItems(num, a) == SerializeItems(num, b)
    decreases a
  {
    assert |a| == |Meanings(a)| == |b|;
    if a != [] {
      assert Meanings(a)[0] == Meanings(b)[0] && Meanings(a)[1..] == Meanings(b)[1..];
      SameText(num, a[0], b[0]);
      SameItems(num, a[1..], b[1..]);
    }
  }

  ghost predicate GoodFields(fields: seq<Field>) {
    DistinctKeys(fields) && forall i :: 0 <= i < |fields| ==> WellFormed(fields[i].value) && Accepted(fields[i].value)
  }

  /** A defined field of b, found by key. */
  lemma {:induction false} FieldOf(fields: seq<Field>, key: Text) returns (i: nat)
    requires DistinctKeys(fields) && key in MeaningOfFields(fields)
    ensures i < |fields| && fields[i].key == key && !fields[i].value.Undefined?
    ensures MeaningOfFields(fields)[key] == Meaning(fields[i].value)
  {
    if !fields[0].value.Undefined? && fields[0].key == key {
      i := 0;
    } else {
      i := FieldOf(fields[1..], key);
      assert fields[1..][i] == fields[i + 1];
      i := i + 1;
    }
  }

  lemma {:induction false} MemberOf(num: Numbers, fields: seq<Field>, i: nat)
    requires i < |fields| && !fields[i].value.Undefined?
    ensures Member(fields[i].key, Serialize(num, fields[i].value)) in SerializeFields(num, fields)
    ensures fields[i].key in MeaningOfFields(fields)
    ensures DistinctKeys(fields) ==> MeaningOfFields(fields)[fields[i].key] == Meaning(fields[i].value)
  {
    if i > 0 {
      MemberOf(num, fields[1..], i - 1);
      assert fields[1..][i - 1] == fields[i];
    }
  }

  lemma {:induction false} SameFields(num: Numbers, a: seq<Field>, b: seq<Field>)
    requires GoodFields(a) && GoodFields(b) && MeaningOfFields(a) == MeaningOfFields(b)
    ensures forall m :: m in SerializeFields(num, a) ==> m in SerializeFields(num, b)
    decreases a, 1
  {
    KeysOfFields(num, a);
    forall m | m in SerializeFields(num, a)
      ensures m in SerializeFields(num, b)
    {
      var i :| 0 <= i < |a| && a[i].key == m.key && !a[i].value.Undefined? && m.text == Serialize(num, a[i].value);
      MemberOf(num, a, i);
      var j := FieldOf(b, m.key);
      SameText(num, a[i].value, b[j].value);
      MemberOf(num, b, j);
    }
  }

  lemma {:induction false} SameFieldsBack(num: Numbers, a: seq<Field>, b: seq<Field>)
    requires GoodFields(a) && GoodFields(b) && MeaningOfFields(a) == MeaningOfFields(b)
    ensures forall m :: m in SerializeFields(num, b) ==> m in SerializeFields(num, a)
    decreases a, 1
  {
    KeysOfFields(num, b);
    forall m | m in SerializeFields(num, b)
      ensures m in SerializeFields(num, a)
    {
      var j :| 0 <= j < |b| && b[j].key == m.key && !b[j].value.Undefined? && m.text == Serialize(num, b[j].value);
      MemberOf(num, b, j);
      var i := FieldOf(a, m.key);
      SameText(num, a[i].value, b[j].value);
      MemberOf(num, a, i);
    }
  }

  /** canonicalize gives two values the same text exactly when they are the same JSON value,
      up to key order, dropped undefined properties, and undefined elsewhere standing for null. */
  lemma CanonicalIffSame(num: Numbers, a: Value, b: Value)
    requires Faithful(num) && WellFormed(a) && Accepted(a) && WellFormed(b) && Accepted(b)
    ensures Serialize(num, a).Ok? && Serialize(num, b).Ok?
    ensures Serialize(num, a) == Serialize(num, b) <==> Meaning(a) == Meaning(b)
  {
    RoundTrip(num, a);
    RoundTrip(num, b);
    if Serialize(num, a) == Serialize(num, b) {
      var t := Serialize(num, a).value;
      assert ReadsBefore(num, t, Meaning(a), []) && ReadsBefore(num, t, Meaning(b), []);
    }
    if Meaning(a) == Meaning(b) {
      SameText(num, a, b);
    }
  }

  /** Listing an object's properties in another order changes nothing. */
  lemma KeyOrderIrrelevant(num: Numbers, a: seq<Field>, b: seq<Field>)
    requires DistinctKeys(a) && DistinctKeys(b) && forall f :: f in a <==> f in b
    ensures Serialize(num, Obj(a)) == Serialize(num, Obj(b))
  {
    ReorderedMembers(num, a, b);
    ReorderedMembers(num, b, a);
    FieldsGiveDistinct(num, a);
    FieldsGiveDistinct(num, b);
    SameListing(SerializeFields(num, a), SerializeFields(num, b));
  }

  lemma ReorderedMembers(num: Numbers, a: seq<Field>, b: seq<Field>)
    requires forall f :: f in a ==> f in b
    ensures forall m :: m in SerializeFields(num, a) ==> m in SerializeFields(num, b)
  {
    KeysOfFields(num, a);
    forall m | m in SerializeFields(num, a)
      ensures m in SerializeFields(num, b)
    {
      var i :| 0 <= i < |a| && a[i].key == m.key && !a[i].value.Undefined? && m.text == Serialize(num, a[i].value);
      assert a[i] in b;
      var j :| 0 <= j < |b| && b[j] == a[i];
      MemberOf(num, b, j);
    }
  }

  // ---- rejection ----

  lemma {:induction false} JoinItemsOk(parts: seq<Result<Text, Error>>)
    ensures JoinItems(parts).Ok? <==> forall i :: 0 <= i < |parts| ==> parts[i].Ok?
  {
    if parts != [] {
      JoinItemsOk(parts[1..]);
      assert forall i :: 0 < i < |parts| ==> parts[i] == parts[1..][i - 1];
      assert |parts| > 1 ==> parts[1..] != [];
    }
  }

  lemma {:induction false} JoinMembersOk(ms: seq<Member>)
    ensures JoinMembers(ms).Ok? <==> forall m :: m in ms ==> m.text.Ok?
  {
    if ms != [] {
      JoinMembersOk(ms[1..]);
      assert ms == [ms[0]] + ms[1..];
      assert forall m :: m in ms <==> m == ms[0] || m in ms[1..];
      assert ms[0] in ms;
    }
  }

  /** canonicalize throws exactly on values that hold a Date, a non-finite number or an unsupported type. */
  lemma {:induction false} RejectsExactly(num: Numbers, v: Value)
    ensures Serialize(num, v).Ok? <==> Accepted(v)
    decreases v
  {
    match v
    case Arr(items) =>
      RejectsItems(num, items);
      JoinItemsOk(SerializeItems(num, items));
    case Obj(fields) =>
      RejectsFields(num, fields);
      SortedMembers(SerializeFields(num, fields));
      JoinMembersOk(Sort(SerializeFields(num, fields), ByKey));
    case _ =>
  }

  lemma {:induction false} RejectsItems(num: Numbers, items: seq<Value>)
    ensures forall i :: 0 <= i < |items| ==> (SerializeItems(num, items)[i].Ok? <==> Accepted(items[i]))
    decreases items
  {
    if items != [] {
      RejectsExactly(num, items[0]);
      RejectsItems(num, items[1..]);
    }
  }

  lemma {:induction false} RejectsFields(num: Numbers, fields: seq<Field>)
    ensures (forall m :: m in SerializeFields(num, fields) ==> m.text.Ok?) <==>
            (forall i :: 0 <= i < |fields| ==> Accepted(fields[i].value))
    decreases fields
  {
    if fields != [] {
      RejectsExactly(num, fields[0].value);
      RejectsFields(num, fields[1..]);
      var rest := SerializeFields(num, fields[1..]);
      assert forall m :: m in SerializeFields(num, fields) <==>
        m in rest || (!fields[0].value.Undefined? && m == Member(fields[0].key, Serialize(num, fields[0].value)));
      assert forall i :: 0 < i < |fields| ==> fields[i] == fields[1..][i - 1];
      if !fields[0].value.Undefined? {
        assert Member(fields[0].key, Serialize(num, fields[0].value)) in SerializeFields(num, fields);
      }
    }
  }

  /** Somewhere inside v is what this error is about. */
  ghost predicate Contains(v: Value, e: Error)
    decreases v
  {
    match v
    case NonFinite => e == NonFiniteNumber
    case Date => e == DateNotAllowed
    case Unsupported => e == UnsupportedType
    case Arr(items) => exists i :: 0 <= i < |items| && Contains(items[i], e)
    case Obj(fields) => exists i :: 0 <= i < |fields| && Contains(fields[i].value, e)
    case _ => false
  }

  lemma {:induction false} ItemsFail(parts: seq<Result<Text, Error>>) returns (i: nat)
    requires JoinItems(parts).Err?
    ensures i < |parts| && parts[i] == JoinItems(parts)
  {
    if parts[0].Err? {
      i := 0;
    } else {
      i := ItemsFail(parts[1..]);
      i := i + 1;
    }
  }

  lemma {:induction false} MembersFail(ms: seq<Member>) returns (m: Member)
    requires JoinMembers(ms).Err?
    ensures m in ms && m.text == JoinMembers(ms)
  {
    if ms[0].text.Err? {
      m := ms[0];
    } else {
      m := MembersFail(ms[1..]);
    }
  }

  /** The exception says what is wrong: it is about a non-finite number, a Date or another type that v does hold. */
  lemma {:induction false} ErrorNames(num: Numbers, v: Value)
    requires Serialize(num, v).Err?
    ensures Contains(v, Serialize(num, v).error)
    decreases v
  {
    match v
    case Arr(items) =>
      var i := ItemsFail(SerializeItems(num, items));
      ItemIs(num, items, i);
      ErrorNames(num, items[i]);
    case Obj(fields) =>
      var ms := SerializeFields(num, fields);
      var m := MembersFail(Sort(ms, ByKey));
      SortedMembers(ms);
      KeysOfFields(num, fields);
      var i :| 0 <= i < |fields| && fields[i].key == m.key && !fields[i].value.Undefined? && m.text == Serialize(num, fields[i].value);
      ErrorNames(num, fields[i].value);
    case _ =>
  }

  lemma {:induction false} ItemIs(num: Numbers, items: seq<Value>, i: nat)
    requires i < |items|
    ensures SerializeItems(num, items)[i] == Serialize(num, items[i])
  {
    if i > 0 {
      ItemIs(num, items[1..], i - 1);
    }
  }

  // ---- no lone surrogates: encoding the text as UTF-8 before hashing loses nothing ----

  predicate Paired(t: Text) {
    if t == [] then true
    else if IsHigh(t[0]) then |t| >= 2 && IsLow(t[1]) && Paired(t[2..])
    else !IsLow(t[0]) && Paired(t[1..])
  }

  lemma {:induction false} PairedAppends(a: Text, b: Text)
    requires Paired(a) && Paired(b)
    ensures Paired(a + b)
  {
    if a == [] {
      assert a + b == b;
    } else if IsHigh(a[0]) {
      PairedAppends(a[2..], b);
      assert (a + b)[2..] == a[2..] + b;
    } else {
      PairedAppends(a[1..], b);
      assert (a + b)[1..] == a[1..] + b;
    }
  }

  lemma {:induction false} PlainPaired(t: Text)
    requires forall i :: 0 <= i < |t| ==> t[i] < 0xD800
    ensures Paired(t)
  {
    if t != [] {
      PlainPaired(t[1..]);
    }
  }

  lemma UnitPaired(u: Unit)
    ensures Paired(EscapeUnit(u))
  {
    var e := EscapeUnit(u);
    if e != [u] {
      PlainPaired(e);
    } else {
      assert e[1..] == [];
    }
  }

  lemma {:induction false} EscapePaired(s: Text)
    ensures Paired(Escape(s))
  {
    if s != [] {
      if |s| >= 2 && IsHigh(s[0]) && IsLow(s[1]) {
        EscapePaired(s[2..]);
        var pair := [s[0], s[1]];
        assert pair[2..] == [] && Paired(pair);
        PairedAppends(pair, Escape(s[2..]));
      } else {
        EscapePaired(s[1..]);
        UnitPaired(s[0]);
        PairedAppends(EscapeUnit(s[0]), Escape(s[1..]));
      }
    }
  }

  lemma Around(open: Text, inner: Text, close: Text)
    requires Paired(open) && Paired(inner) && Paired(close)
    ensures Paired(open + inner + close)
  {
    PairedAppends(open, inner);
    PairedAppends(open + inner, close);
  }

  lemma QuotePaired(s: Text)
    ensures Paired(Quote(s))
  {
    EscapePaired(s);
    PlainPaired([QUOTE]);
    Around([QUOTE], Escape(s), [QUOTE]);
  }

  lemma {:induction false} JoinItemsPaired(parts: seq<Result<Text, Error>>)
    requires forall i :: 0 <= i < |parts| && parts[i].Ok? ==> Paired(parts[i].value)
    ensures JoinItems(parts).Ok? ==> Paired(JoinItems(parts).value)
  {
    if |parts| > 1 && JoinItems(parts).Ok? {
      JoinItemsPaired(parts[1..]);
      PlainPaired([COMMA]);
      Around(parts[0].value, [COMMA], JoinItems(parts[1..]).value);
    }
  }

  lemma MemberPaired(m: Member)
    requires m.text.Ok? && Paired(m.text.value)
    ensures Paired(MemberText(m).value)
  {
    QuotePaired(m.key);
    PlainPaired([COLON]);
    Around(Quote(m.key), [COLON], m.text.value);
  }

  lemma {:induction false} JoinMembersPaired(ms: seq<Member>)
    requires forall m :: m in ms && m.text.Ok? ==> Paired(m.text.value)
    ensures JoinMembers(ms).Ok? ==> Paired(JoinMembers(ms).value)
  {
    if ms != [] && ms[0].text.Ok? {
      assert ms[0] in ms;
      MemberPaired(ms[0]);
      MemberTextIs(ms[0]);
      JoinMembersPaired(ms[1..]);
      if |ms| > 1 && JoinMembers(ms).Ok? {
        PlainPaired([COMMA]);
        Around(MemberText(ms[0]).value, [COMMA], JoinMembers(ms[1..]).value);
      }
    }
  }

  /** A canonical text holds no lone surrogate. */
  lemma {:induction false} CanonicalTextPaired(num: Numbers, v: Value)
    requires Faithful(num)
    ensures Serialize(num, v).Ok? ==> Paired(Serialize(num, v).value)
    decreases v
  {
    hide Paired, JoinItems, JoinMembers, Quote;
    PlainPaired([LBRACK]);
    PlainPaired([RBRACK]);
    PlainPaired([LBRACE]);
    PlainPaired([RBRACE]);
    match v
    case Str(s) => QuotePaired(s);
    case Number(n) =>
      var t := num.show(n);
      forall i | 0 <= i < |t|
        ensures t[i] < 0xD800
      {
        assert IsNumberUnit(t[i]);
      }
      PlainPaired(t);
    case Bool(b) => PlainPaired(if b then TRUE_TEXT else FALSE_TEXT);
    case Arr(items) =>
      ItemsPaired(num, items);
      JoinItemsPaired(SerializeItems(num, items));
      if Serialize(num, v).Ok? {
        Around([LBRACK], JoinItems(SerializeItems(num, items)).value, [RBRACK]);
      }
    case Obj(fields) =>
      FieldsPaired(num, fields);
      var ms := Sort(SerializeFields(num, fields), ByKey);
      SortedMembers(SerializeFields(num, fields));
      JoinMembersPaired(ms);
      if Serialize(num, v).Ok? {
        Around([LBRACE], JoinMembers(ms).value, [RBRACE]);
      }
    case _ => PlainPaired(NULL_TEXT);
  }

  lemma {:induction false} ItemsPaired(num: Numbers, items: seq<Value>)
    requires Faithful(num)
    ensures forall i :: 0 <= i < |items| && SerializeItems(num, items)[i].Ok? ==> Paired(SerializeItems(num, items)[i].value)
    decreases items
  {
    if items != [] {
      CanonicalTextPaired(num, items[0]);
      ItemsPaired(num, items[1..]);
    }
  }

  lemma {:induction false} FieldsPaired(num: Numbers, fields: seq<Field>)
    requires Faithful(num)
    ensures forall m :: m in SerializeFields(num, fields) && m.text.Ok? ==> Paired(m.text.value)
    decreases fields
  {
    if fields != [] {
      CanonicalTextPaired(num, fields[0].value);
      FieldsPaired(num, fields[1..]);
    }
  }
}
