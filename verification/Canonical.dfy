// packages/shared/src/canonical.ts: canonical JSON, and a reader that undoes it.
module Canonical {
  import opened Wrappers
  import opened Sequences

  /** Strings are sequences of UTF-16 code units, as in JavaScript. */
  type Unit = x: int | 0 <= x < 0x1_0000

  type Text = seq<Unit>

  datatype Error = NonFiniteNumber | DateNotAllowed | UnsupportedType

  /** A JavaScript value. Number names a finite double up to the sign of zero;
      Obj lists its own enumerable properties in insertion order. */
  datatype Value =
    | Undefined
    | Null
    | Bool(b: bool)
    | Number(n: int)
    | NonFinite
    | Str(s: Text)
    | Date
    | Unsupported
    | Arr(items: seq<Value>)
    | Obj(fields: seq<Field>)

  datatype Field = Field(key: Text, value: Value)

  /** JSON.stringify and JSON.parse on numbers. */
  datatype Numbers = Numbers(show: int -> Text, read: Text -> int)

  const QUOTE: Unit := 34
  const BACKSLASH: Unit := 92
  const COMMA: Unit := 44
  const COLON: Unit := 58
  const LBRACK: Unit := 91
  const RBRACK: Unit := 93
  const LBRACE: Unit := 123
  const RBRACE: Unit := 125
  const NULL_TEXT: Text := [110, 117, 108, 108]
  const TRUE_TEXT: Text := [116, 114, 117, 101]
  const FALSE_TEXT: Text := [102, 97, 108, 115, 101]

  /** Digits, sign, point and exponent. */
  predicate IsNumberUnit(u: Unit) {
    48 <= u <= 57 || u == 43 || u == 45 || u == 46 || u == 69 || u == 101
  }

  ghost predicate Faithful(num: Numbers) {
    forall n {:trigger num.show(n)} ::
      |num.show(n)| > 0 && (forall i :: 0 <= i < |num.show(n)| ==> IsNumberUnit(num.show(n)[i])) &&
      num.read(num.show(n)) == n
  }

  // ---- strings ----

  predicate IsHigh(u: Unit) { 0xD800 <= u < 0xDC00 }

  predicate IsLow(u: Unit) { 0xDC00 <= u < 0xE000 }

  function HexDigit(d: int): Unit
    requires 0 <= d < 16
  {
    if d < 10 then 48 + d else 87 + d
  }

  function Hex4(u: Unit): Text {
    [HexDigit(u / 4096), HexDigit(u / 256 % 16), HexDigit(u / 16 % 16), HexDigit(u % 16)]
  }

  function EscapeUnit(u: Unit): Text {
    if u == QUOTE || u == BACKSLASH then [BACKSLASH, u]
    else if u == 8 then [BACKSLASH, 98]
    else if u == 9 then [BACKSLASH, 116]
    else if u == 10 then [BACKSLASH, 110]
    else if u == 12 then [BACKSLASH, 102]
    else if u == 13 then [BACKSLASH, 114]
    else if u < 32 || IsHigh(u) || IsLow(u) then [BACKSLASH, 117] + Hex4(u)
    else [u]
  }

  /** The inside of JSON.stringify of a string; a lone surrogate is escaped, a pair is not. */
  function Escape(s: Text): Text {
    if s == [] then []
    else if |s| >= 2 && IsHigh(s[0]) && IsLow(s[1]) then [s[0], s[1]] + Escape(s[2..])
    else EscapeUnit(s[0]) + Escape(s[1..])
  }

  function Quote(s: Text): Text {
    [QUOTE] + Escape(s) + [QUOTE]
  }

  // ---- the printer ----

  /** Array.prototype.sort on strings: by code unit. */
  predicate LexLeq(a: Text, b: Text) {
    a == [] || (b != [] && (a[0] < b[0] || (a[0] == b[0] && LexLeq(a[1..], b[1..]))))
  }

  datatype Member = Member(key: Text, text: Result<Text, Error>)

  predicate ByKey(a: Member, b: Member) {
    LexLeq(a.key, b.key)
  }

  function Serialize(num: Numbers, v: Value): Result<Text, Error>
    decreases v
  {
    match v
    case Null => Ok(NULL_TEXT)
    case Undefined => Ok(NULL_TEXT)
    case NonFinite => Err(NonFiniteNumber)
    case Number(n) => Ok(num.show(n))
    case Bool(b) => Ok(if b then TRUE_TEXT else FALSE_TEXT)
    case Str(s) => Ok(Quote(s))
    case Date => Err(DateNotAllowed)
    case Arr(items) => Wrap(LBRACK, JoinItems(SerializeItems(num, items)), RBRACK)
    case Obj(fields) => Wrap(LBRACE, JoinMembers(Sort(SerializeFields(num, fields), ByKey)), RBRACE)
    case Unsupported => Err(UnsupportedType)
  }

  function SerializeItems(num: Numbers, items: seq<Value>): (r: seq<Result<Text, Error>>)
    ensures |r| == |items|
    decreases items
  {
    if items == [] then [] else [Serialize(num, items[0])] + SerializeItems(num, items[1..])
  }

  function SerializeFields(num: Numbers, fields: seq<Field>): seq<Member>
    decreases fields
  {
    if fields == [] then []
    else
      var rest := SerializeFields(num, fields[1..]);
      if fields[0].value.Undefined? then rest
      else [Member(fields[0].key, Serialize(num, fields[0].value))] + rest
  }

  function Wrap(open: Unit, inner: Result<Text, Error>, close: Unit): Result<Text, Error> {
    if inner.Err? then inner else Ok([open] + inner.value + [close])
  }

  function JoinItems(parts: seq<Result<Text, Error>>): Result<Text, Error> {
    if parts == [] then Ok([])
    else if parts[0].Err? || |parts| == 1 then parts[0]
    else
      var rest := JoinItems(parts[1..]);
      if rest.Err? then rest else Ok(parts[0].value + [COMMA] + rest.value)
  }

  function MemberText(m: Member): Result<Text, Error> {
    if m.text.Err? then m.text else Ok(Quote(m.key) + [COLON] + m.text.value)
  }

  function JoinMembers(members: seq<Member>): Result<Text, Error> {
    if members == [] then Ok([])
    else if members[0].text.Err? || |members| == 1 then MemberText(members[0])
    else
      var rest := JoinMembers(members[1..]);
      if rest.Err? then rest else Ok(MemberText(members[0]).value + [COMMA] + rest.value)
  }

  // ---- what a value means as JSON: no key order, no undefined ----

  datatype Json =
    | JNull
    | JBool(b: bool)
    | JNum(n: int)
    | JStr(s: Text)
    | JArr(items: seq<Json>)
    | JObj(fields: map<Text, Json>)

  /** Nothing inside v that is kept is a Date, a non-finite number or a function. */
  predicate Accepted(v: Value)
    decreases v
  {
    match v
    case NonFinite => false
    case Date => false
    case Unsupported => false
    case Arr(items) => forall i | 0 <= i < |items| :: Accepted(items[i])
    case Obj(fields) => forall i | 0 <= i < |fields| :: Accepted(fields[i].value)
    case _ => true
  }

  /** Objects have distinct keys, at every level. */
  predicate WellFormed(v: Value)
    decreases v
  {
    match v
    case Arr(items) => forall i | 0 <= i < |items| :: WellFormed(items[i])
    case Obj(fields) => DistinctKeys(fields) && forall i | 0 <= i < |fields| :: WellFormed(fields[i].value)
    case _ => true
  }

  predicate DistinctKeys(fields: seq<Field>) {
    forall i, j | 0 <= i < j < |fields| :: fields[i].key != fields[j].key
  }

  /** The JSON value an accepted v stands for. */
  function Meaning(v: Value): Json
    decreases v
  {
    match v
    case Bool(b) => JBool(b)
    case Number(n) => JNum(n)
    case Str(s) => JStr(s)
    case Arr(items) => JArr(Meanings(items))
    case Obj(fields) => JObj(MeaningOfFields(fields))
    case _ => JNull
  }

  function Meanings(items: seq<Value>): (r: seq<Json>)
    ensures |r| == |items|
    decreases items
  {
    if items == [] then [] else [Meaning(items[0])] + Meanings(items[1..])
  }

  function MeaningOfFields(fields: seq<Field>): map<Text, Json>
    decreases fields
  {
    if fields == [] then map[]
    else
      var rest := MeaningOfFields(fields[1..]);
      if fields[0].value.Undefined? then rest else rest[fields[0].key := Meaning(fields[0].value)]
  }

  // ---- the reader ----

  type Parsed<T> = Option<(T, Text)>

  predicate StartsWith(t: Text, prefix: Text) {
    prefix <= t
  }

  function FromHex(u: Unit): Option<int> {
    if 48 <= u <= 57 then Some(u - 48)
    else if 97 <= u <= 102 then Some(u - 87)
    else if 65 <= u <= 70 then Some(u - 55)
    else None
  }

  function ReadHex4(t: Text): (r: Option<Unit>)
  {
    if |t| < 4 then None
    else
      var a, b, c, d := FromHex(t[0]), FromHex(t[1]), FromHex(t[2]), FromHex(t[3]);
      if a.None? || b.None? || c.None? || d.None? then None
      else Some(((a.value * 16 + b.value) * 16 + c.value) * 16 + d.value)
  }

  function Unescape(u: Unit): Option<Unit> {
    if u == QUOTE || u == BACKSLASH || u == 47 then Some(u)
    else if u == 98 then Some(8)
    else if u == 116 then Some(9)
    else if u == 110 then Some(10)
    else if u == 102 then Some(12)
    else if u == 114 then Some(13)
    else None
  }

  /** Reads up to and over the closing quote. */
  function ReadString(t: Text): (r: Parsed<Text>)
    ensures r.Some? ==> |r.value.1| < |t|
  {
    if t == [] then None
    else if t[0] == QUOTE then Some(([], t[1..]))
    else if t[0] != BACKSLASH then Prepend(t[0], ReadString(t[1..]))
    else if |t| < 2 then None
    else if t[1] == 117 then
      var u := ReadHex4(t[2..]);
      if u.None? then None else Prepend(u.value, ReadString(t[6..]))
    else
      var u := Unescape(t[1]);
      if u.None? then None else Prepend(u.value, ReadString(t[2..]))
  }

  function Prepend(u: Unit, r: Parsed<Text>): Parsed<Text> {
    if r.None? then None else Some(([u] + r.value.0, r.value.1))
  }

  function NumberRun(t: Text): (n: nat)
    ensures n <= |t|
  {
    if t == [] || !IsNumberUnit(t[0]) then 0 else 1 + NumberRun(t[1..])
  }

  function ReadValue(num: Numbers, t: Text): (r: Parsed<Json>)
    ensures r.Some? ==> |r.value.1| < |t|
    decreases |t|, 1
  {
    if t == [] then None
    else if StartsWith(t, NULL_TEXT) then Some((JNull, t[4..]))
    else if StartsWith(t, TRUE_TEXT) then Some((JBool(true), t[4..]))
    else if StartsWith(t, FALSE_TEXT) then Some((JBool(false), t[5..]))
    else if t[0] == QUOTE then
      var s := ReadString(t[1..]);
      if s.None? then None else Some((JStr(s.value.0), s.value.1))
    else if t[0] == LBRACK then
      if |t| >= 2 && t[1] == RBRACK then Some((JArr([]), t[2..]))
      else
        var items := ReadItems(num, t[1..]);
        if items.None? then None else Some((JArr(items.value.0), items.value.1))
    else if t[0] == LBRACE then
      if |t| >= 2 && t[1] == RBRACE then Some((JObj(map[]), t[2..]))
      else
        var fields := ReadFields(num, t[1..]);
        if fields.None? then None else Some((JObj(fields.value.0), fields.value.1))
    else if IsNumberUnit(t[0]) then
      var k := NumberRun(t);
      Some((JNum(num.read(t[..k])), t[k..]))
    else None
  }

  /** One or more comma-separated values, then the closing bracket. */
  function ReadItems(num: Numbers, t: Text): (r: Parsed<seq<Json>>)
    ensures r.Some? ==> |r.value.1| < |t|
    decreases |t|, 2
  {
    var first := ReadValue(num, t);
    if first.None? || first.value.1 == [] then None
    else
      var after := first.value.1;
      if after[0] == RBRACK then Some(([first.value.0], after[1..]))
      else if after[0] != COMMA then None
      else
        var rest := ReadItems(num, after[1..]);
        if rest.None? then None else Some(([first.value.0] + rest.value.0, rest.value.1))
  }

  /** One or more comma-separated members, then the closing brace. */
  function ReadFields(num: Numbers, t: Text): (r: Parsed<map<Text, Json>>)
    ensures r.Some? ==> |r.value.1| < |t|
    decreases |t|, 2
  {
    if t == [] || t[0] != QUOTE then None
    else
      var key := ReadString(t[1..]);
      if key.None? || key.value.1 == [] || key.value.1[0] != COLON then None
      else
        var value := ReadValue(num, key.value.1[1..]);
        if value.None? || value.value.1 == [] then None
        else
          var after := value.value.1;
          var own := map[key.value.0 := value.value.0];
          if after[0] == RBRACE then Some((own, after[1..]))
          else if after[0] != COMMA then None
          else
            var rest := ReadFields(num, after[1..]);
            if rest.None? then None else Some((own + rest.value.0, rest.value.1))
  }
}
