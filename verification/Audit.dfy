// apps/api/src/audit/service.ts: the hash-chained audit log.
module Audit {
  import opened Wrappers
  import opened Canonical
  import opened CanonicalTheorems
  import opened CanonicalOrder

  /** SHA-256 in hex over a canonical text; `num` is JSON's number printing. */
  datatype Hasher = Hasher(num: Numbers, digest: Text -> Text)

  /** The hash is taken to be injective. */
  ghost predicate CollisionFree(h: Hasher) {
    Faithful(h.num) && forall a, b :: h.digest(a) == h.digest(b) ==> a == b
  }

  /** What one row hashes. createdAt is the ISO text; meta is Null when there is none. */
  datatype Entry = Entry(
    actorId: Option<Text>, action: Text, entity: Text, entityId: Option<Text>,
    meta: Value, prevHash: Option<Text>, createdAt: Text)

  /** no is the database's seq column. */
  datatype Row = Row(no: nat, entry: Entry, hash: Option<Text>)

  const ACTOR_ID: Text := [97, 99, 116, 111, 114, 73, 100]
  const ACTION: Text := [97, 99, 116, 105, 111, 110]
  const ENTITY: Text := [101, 110, 116, 105, 116, 121]
  const ENTITY_ID: Text := [101, 110, 116, 105, 116, 121, 73, 100]
  const META: Text := [109, 101, 116, 97]
  const PREV_HASH: Text := [112, 114, 101, 118, 72, 97, 115, 104]
  const CREATED_AT: Text := [99, 114, 101, 97, 116, 101, 100, 65, 116]

  lemma FieldNames()
    ensures Spells(ACTOR_ID, "actorId") && Spells(ACTION, "action") && Spells(ENTITY, "entity") && Spells(ENTITY_ID, "entityId")
    ensures Spells(META, "meta") && Spells(PREV_HASH, "prevHash") && Spells(CREATED_AT, "createdAt")
  {
  }

  function OrNull(s: Option<Text>): Value {
    if s.None? then Null else Str(s.value)
  }

  function Material(e: Entry): Value {
    Obj([
      Field(ACTOR_ID, OrNull(e.actorId)),
      Field(ACTION, Str(e.action)),
      Field(ENTITY, Str(e.entity)),
      Field(ENTITY_ID, OrNull(e.entityId)),
      Field(META, e.meta),
      Field(PREV_HASH, OrNull(e.prevHash)),
      Field(CREATED_AT, Str(e.createdAt))])
  }

  /** meta is any JSON value: record stores an object or null, but the column can hold more. */
  predicate JsonMeta(v: Value) {
    !v.Undefined? && WellFormed(v)
  }

  predicate Hashable(e: Entry) {
    JsonMeta(e.meta) && Accepted(e.meta)
  }

  /** sha256Hex(canonicalize(material)); an Err is canonicalize's exception. */
  function HashOf(h: Hasher, e: Entry): Result<Text, Error> {
    var t := Serialize(h.num, Material(e));
    if t.Err? then t else Ok(h.digest(t.value))
  }

  /** Equal in every hashed field, meta up to key order. */
  predicate SameEntry(a: Entry, b: Entry) {
    a.(meta := b.meta) == b && Meaning(a.meta) == Meaning(b.meta)
  }

  // ---- the material determines the entry ----

  function OrJNull(s: Option<Text>): Json {
    if s.None? then JNull else JStr(s.value)
  }

  function MaterialMap(e: Entry): map<Text, Json> {
    map[CREATED_AT := JStr(e.createdAt)][PREV_HASH := OrJNull(e.prevHash)][META := Meaning(e.meta)]
       [ENTITY_ID := OrJNull(e.entityId)][ENTITY := JStr(e.entity)][ACTION := JStr(e.action)][ACTOR_ID := OrJNull(e.actorId)]
  }

  lemma FirstField(f: Field, rest: seq<Field>)
    requires !f.value.Undefined?
    ensures MeaningOfFields([f] + rest) == MeaningOfFields(rest)[f.key := Meaning(f.value)]
  {
    assert ([f] + rest)[1..] == rest;
  }

  lemma MaterialMeaning(e: Entry)
    requires JsonMeta(e.meta)
    ensures Meaning(Material(e)) == JObj(MaterialMap(e))
  {
    hide MeaningOfFields;
    var f0, f1, f2 := Field(ACTOR_ID, OrNull(e.actorId)), Field(ACTION, Str(e.action)), Field(ENTITY, Str(e.entity));
    var f3, f4, f5 := Field(ENTITY_ID, OrNull(e.entityId)), Field(META, e.meta), Field(PREV_HASH, OrNull(e.prevHash));
    var f6 := Field(CREATED_AT, Str(e.createdAt));
    FirstField(f6, []);
    FirstField(f5, [f6]);
    FirstField(f4, [f5, f6]);
    FirstField(f3, [f4, f5, f6]);
    FirstField(f2, [f3, f4, f5, f6]);
    FirstField(f1, [f2, f3, f4, f5, f6]);
    FirstField(f0, [f1, f2, f3, f4, f5, f6]);
    NoFields();
    assert [f6] + [] == [f6];
    assert [f5] + [f6] == [f5, f6];
    assert [f4] + [f5, f6] == [f4, f5, f6];
    assert [f3] + [f4, f5, f6] == [f3, f4, f5, f6];
    assert [f2] + [f3, f4, f5, f6] == [f2, f3, f4, f5, f6];
    assert [f1] + [f2, f3, f4, f5, f6] == [f1, f2, f3, f4, f5, f6];
    assert Material(e) == Obj([f0] + [f1, f2, f3, f4, f5, f6]);
  }

  lemma NoFields()
    ensures MeaningOfFields([]) == map[]
  {
  }

  lemma MaterialWellFormed(e: Entry)
    requires JsonMeta(e.meta)
    ensures WellFormed(Material(e))
    ensures Accepted(Material(e)) <==> Accepted(e.meta)
  {
    assert Material(e).fields[4].value == e.meta;
  }

  lemma MapDetermines(a: Entry, b: Entry)
    ensures MaterialMap(a) == MaterialMap(b) <==> SameEntry(a, b)
  {
    var m, n := MaterialMap(a), MaterialMap(b);
    if m == n {
      assert m[ACTOR_ID] == n[ACTOR_ID] && m[ACTION] == n[ACTION] && m[ENTITY] == n[ENTITY];
      assert m[ENTITY_ID] == n[ENTITY_ID] && m[META] == n[META] && m[PREV_HASH] == n[PREV_HASH] && m[CREATED_AT] == n[CREATED_AT];
    }
  }

  /** Two rows hash alike exactly when they agree in every hashed field. */
  lemma HashDetermines(h: Hasher, a: Entry, b: Entry)
    requires CollisionFree(h) && Hashable(a) && Hashable(b)
    ensures HashOf(h, a).Ok? && HashOf(h, b).Ok?
    ensures HashOf(h, a) == HashOf(h, b) <==> SameEntry(a, b)
  {
    hide Material, SameEntry, MaterialMap;
    MaterialWellFormed(a);
    MaterialWellFormed(b);
    CanonicalIffSame(h.num, Material(a), Material(b));
    MaterialMeaning(a);
    MaterialMeaning(b);
    MapDetermines(a, b);
  }

  // ---- the chain ----

  /** Rows in seq order, each with a storable meta. */
  ghost predicate Stored(log: seq<Row>) {
    && (forall i, j :: 0 <= i < j < |log| ==> log[i].no < log[j].no)
    && (forall i :: 0 <= i < |log| ==> Hashable(log[i].entry))
  }

  /** The hash of the last row before seq `no`: findFirst({seq < no}, desc)?.hash ?? null. */
  function Before(log: seq<Row>, no: nat): Option<Text> {
    if log == [] then None
    else if log[|log| - 1].no < no then log[|log| - 1].hash
    else Before(log[..|log| - 1], no)
  }

  function Tip(log: seq<Row>): Option<Text> {
    if log == [] then None else log[|log| - 1].hash
  }

  predicate GoodRow(h: Hasher, log: seq<Row>, r: Row) {
    r.entry.prevHash == Before(log, r.no) && HashOf(h, r.entry).Ok? && r.hash == Some(HashOf(h, r.entry).value)
  }

  ghost predicate ValidLog(h: Hasher, log: seq<Row>) {
    Stored(log) && forall i :: 0 <= i < |log| ==> GoodRow(h, log, log[i])
  }

  lemma {:induction false} BeforeIsPrevious(log: seq<Row>, i: nat)
    requires Stored(log) && i < |log|
    ensures Before(log, log[i].no) == Tip(log[..i])
    decreases |log|
  {
    var k := |log| - 1;
    if i < k {
      BeforeIsPrevious(log[..k], i);
      assert log[..k][..i] == log[..i];
    } else if k > 0 {
      assert log[..k][k - 1].no < log[k].no;
      assert Before(log[..k], log[k].no) == log[k - 1].hash;
    }
  }

  lemma {:induction false} PrefixValid(h: Hasher, log: seq<Row>, k: nat)
    requires ValidLog(h, log) && k <= |log|
    ensures ValidLog(h, log[..k])
  {
    hide HashOf;
    forall i | 0 <= i < k
      ensures GoodRow(h, log[..k], log[..k][i])
    {
      assert GoodRow(h, log, log[i]);
      BeforeIsPrevious(log, i);
      BeforeIsPrevious(log[..k], i);
      assert log[..k][..i] == log[..i];
    }
  }

  lemma LastRow(h: Hasher, log: seq<Row>)
    requires ValidLog(h, log) && log != []
    ensures var k := |log| - 1; var r := log[k];
      Hashable(r.entry) && r.entry.prevHash == Tip(log[..k]) && HashOf(h, r.entry).Ok? && r.hash == Some(HashOf(h, r.entry).value)
  {
    assert GoodRow(h, log, log[|log| - 1]);
    BeforeIsPrevious(log, |log| - 1);
  }

  /** One hash pins down the whole history: two accepted logs with the same last hash agree row for row
      in all hashed fields. */
  lemma {:induction false} TipDeterminesLog(h: Hasher, a: seq<Row>, b: seq<Row>)
    requires CollisionFree(h) && ValidLog(h, a) && ValidLog(h, b) && Tip(a) == Tip(b)
    ensures |a| == |b|
    ensures forall i :: 0 <= i < |a| ==> SameEntry(a[i].entry, b[i].entry) && a[i].hash == b[i].hash
    decreases |a|
  {
    hide HashOf, ValidLog, SameEntry;
    if a == [] {
      if b != [] {
        LastRow(h, b);
      }
    } else {
      LastRow(h, a);
      var k := |a| - 1;
      if b != [] {
        LastRow(h, b);
        var l := |b| - 1;
        HashDetermines(h, a[k].entry, b[l].entry);
        SamePrev(a[k].entry, b[l].entry);
        PrefixValid(h, a, k);
        PrefixValid(h, b, l);
        TipDeterminesLog(h, a[..k], b[..l]);
        forall i | 0 <= i < |a|
          ensures SameEntry(a[i].entry, b[i].entry) && a[i].hash == b[i].hash
        {
          if i < k {
            assert a[..k][i] == a[i] && b[..l][i] == b[i];
          }
        }
      }
    }
  }

  lemma SamePrev(a: Entry, b: Entry)
    requires SameEntry(a, b)
    ensures a.prevHash == b.prevHash
  {
  }

  // ---- verifyChain ----

  datatype Broken = Broken(no: nat, expectedHash: Text, actualHash: Option<Text>)

  predicate InScope(r: Row, entity: Option<Text>, entityId: Option<Text>) {
    (entity.None? || entity.value == r.entry.entity) && (entityId.None? || r.entry.entityId == entityId)
  }

  /** findMany({where}, seq asc). */
  function Select(log: seq<Row>, entity: Option<Text>, entityId: Option<Text>): (rows: seq<Row>)
    ensures forall r :: r in rows <==> r in log && InScope(r, entity, entityId)
    ensures entity.None? && entityId.None? ==> rows == log
  {
    if log == [] then []
    else
      var k := |log| - 1;
      assert log == log[..k] + [log[k]];
      var rest := Select(log[..k], entity, entityId);
      if InScope(log[k], entity, entityId) then rest + [log[k]] else rest
  }

  lemma {:induction false} SelectOrdered(log: seq<Row>, entity: Option<Text>, entityId: Option<Text>)
    requires Stored(log)
    ensures Stored(Select(log, entity, entityId))
  {
    if log != [] {
      var k := |log| - 1;
      SelectOrdered(log[..k], entity, entityId);
      var rest := Select(log[..k], entity, entityId);
      forall i | 0 <= i < |rest|
        ensures rest[i].no < log[k].no
      {
        assert rest[i] in log[..k];
      }
    }
  }

  ghost predicate AllGood(h: Hasher, log: seq<Row>, entity: Option<Text>, entityId: Option<Text>) {
    forall row :: row in log && InScope(row, entity, entityId) ==> GoodRow(h, log, row)
  }

  /** row is the bad row of least seq in the scope. */
  ghost predicate LeastBad(h: Hasher, log: seq<Row>, entity: Option<Text>, entityId: Option<Text>, row: Row) {
    && row in log && InScope(row, entity, entityId) && !GoodRow(h, log, row)
    && forall other :: other in log && InScope(other, entity, entityId) && other.no < row.no ==> GoodRow(h, log, other)
  }

  lemma RowCheck(h: Hasher, log: seq<Row>, row: Row, prev: Option<Text>, expected: Text)
    requires prev == Before(log, row.no) && HashOf(h, row.entry) == Ok(expected)
    ensures GoodRow(h, log, row) <==> row.entry.prevHash == prev && row.hash == Some(expected)
  {
  }

  lemma FoundBad(h: Hasher, log: seq<Row>, entity: Option<Text>, entityId: Option<Text>, rows: seq<Row>, i: nat)
    requires Stored(rows) && forall r :: r in rows <==> r in log && InScope(r, entity, entityId)
    requires i < |rows| && !GoodRow(h, log, rows[i])
    requires forall j :: 0 <= j < i ==> GoodRow(h, log, rows[j])
    ensures LeastBad(h, log, entity, entityId, rows[i])
    ensures !AllGood(h, log, entity, entityId)
  {
    hide GoodRow, InScope;
    assert rows[i] in rows;
    forall other | other in rows && other.no < rows[i].no
      ensures GoodRow(h, log, other)
    {
      var j :| 0 <= j < |rows| && rows[j] == other;
      assert j < i;
    }
  }

  lemma FoundNone(h: Hasher, log: seq<Row>, entity: Option<Text>, entityId: Option<Text>)
    requires forall j :: 0 <= j < |Select(log, entity, entityId)| ==> GoodRow(h, log, Select(log, entity, entityId)[j])
    ensures AllGood(h, log, entity, entityId)
  {
    hide GoodRow, InScope;
    assert forall row :: row in Select(log, entity, entityId) ==> GoodRow(h, log, row);
  }

  /** None: valid. Otherwise the least bad row in scope. */
  method VerifyChain(h: Hasher, log: seq<Row>, entity: Option<Text>, entityId: Option<Text>) returns (r: Option<Broken>)
    requires Stored(log)
    ensures r.None? <==> AllGood(h, log, entity, entityId)
    ensures r.Some? ==> exists row ::
      LeastBad(h, log, entity, entityId, row) && HashOf(h, row.entry) == Ok(r.value.expectedHash) &&
      r.value.no == row.no && r.value.actualHash == row.hash
  {
    hide HashOf, CollisionFree, InScope, GoodRow, Before, Select, AllGood, LeastBad;
    var rows := Select(log, entity, entityId);
    SelectOrdered(log, entity, entityId);
    var scoped := entity.Some? || entityId.Some?;
    var expectedPrevHash: Option<Text> := None;
    for i := 0 to |rows|
      invariant !scoped ==> expectedPrevHash == Tip(rows[..i])
      invariant forall j :: 0 <= j < i ==> GoodRow(h, log, rows[j])
    {
      var row := rows[i];
      assert row in rows;
      if scoped {
        expectedPrevHash := Before(log, row.no);
      } else {
        BeforeIsPrevious(log, i);
      }
      MaterialHashes(h, row.entry);
      var expectedHash := HashOf(h, row.entry).value;
      RowCheck(h, log, row, expectedPrevHash, expectedHash);
      if row.entry.prevHash != expectedPrevHash || row.hash != Some(expectedHash) {
        FoundBad(h, log, entity, entityId, rows, i);
        return Some(Broken(row.no, expectedHash, row.hash));
      }
      expectedPrevHash := row.hash;
      assert Tip(rows[..i + 1]) == rows[i].hash;
    }
    FoundNone(h, log, entity, entityId);
    return None;
  }

  /** The full walk accepts exactly when every walk scoped to one entity does. */
  lemma FullIffScoped(h: Hasher, log: seq<Row>)
    requires Stored(log)
    ensures ValidLog(h, log) <==> AllGood(h, log, None, None)
    ensures ValidLog(h, log) <==> forall entity :: AllGood(h, log, Some(entity), None)
    ensures ValidLog(h, log) <==> forall entity, entityId :: AllGood(h, log, entity, entityId)
  {
    hide GoodRow;
    forall i | 0 <= i < |log|
      ensures log[i] in log && InScope(log[i], Some(log[i].entry.entity), None) && InScope(log[i], None, None)
    {
    }
    if forall entity :: AllGood(h, log, Some(entity), None) {
      forall i | 0 <= i < |log|
        ensures GoodRow(h, log, log[i])
      {
        assert AllGood(h, log, Some(log[i].entry.entity), None);
      }
    }
    if AllGood(h, log, None, None) {
      assert ValidLog(h, log);
    }
  }

  /**
    * Whatever is changed in one row of an accepted log, hashed fields or the hash itself: the rows before it stay good,
    * and it or else the row after it is bad. Only a last row that is hashed anew can pass.
    */
  lemma TamperingFound(h: Hasher, log: seq<Row>, i: nat, forged: Entry, hash: Option<Text>)
    requires CollisionFree(h) && ValidLog(h, log) && i < |log| && Hashable(forged)
    requires !(SameEntry(log[i].entry, forged) && hash == log[i].hash)
    ensures var log' := log[i := Row(log[i].no, forged, hash)];
      && Stored(log') && (forall j :: 0 <= j < i ==> GoodRow(h, log', log'[j]))
      && (i + 1 < |log| ==> !GoodRow(h, log', log'[i]) || !GoodRow(h, log', log'[i + 1]))
      && (ValidLog(h, log') <==> i + 1 == |log| && GoodRow(h, log', log'[i]))
  {
    hide HashOf, SameEntry;
    var log' := log[i := Row(log[i].no, forged, hash)];
    RowsBeforeStayGood(h, log, log', i);
    if GoodRow(h, log', log'[i]) {
      assert GoodRow(h, log, log[i]);
      HashDetermines(h, log[i].entry, forged);
      assert hash != log[i].hash;
      if i + 1 < |log| {
        assert GoodRow(h, log, log[i + 1]);
        BeforeIsPrevious(log, i + 1);
        BeforeIsPrevious(log', i + 1);
        assert Tip(log[..i + 1]) == log[i].hash && Tip(log'[..i + 1]) == hash;
      }
    }
  }

  lemma RowsBeforeStayGood(h: Hasher, log: seq<Row>, log': seq<Row>, i: nat)
    requires ValidLog(h, log) && Stored(log') && i <= |log| == |log'| && log'[..i] == log[..i]
    ensures forall j :: 0 <= j < i ==> GoodRow(h, log', log'[j])
  {
    hide HashOf;
    forall j | 0 <= j < i
      ensures GoodRow(h, log', log'[j])
    {
      assert GoodRow(h, log, log[j]);
      BeforeIsPrevious(log, j);
      BeforeIsPrevious(log', j);
      assert log'[j] == log'[..i][j] == log[j];
      assert log'[..j] == log'[..i][..j] == log[..j];
    }
  }

  // ---- record ----

  lemma AppendValid(h: Hasher, log: seq<Row>, r: Row)
    requires ValidLog(h, log) && Hashable(r.entry) && forall i :: 0 <= i < |log| ==> log[i].no < r.no
    requires r.entry.prevHash == Tip(log) && HashOf(h, r.entry).Ok? && r.hash == Some(HashOf(h, r.entry).value)
    ensures ValidLog(h, log + [r])
  {
    hide HashOf;
    var log' := log + [r];
    forall i | 0 <= i < |log'|
      ensures GoodRow(h, log', log'[i])
    {
      BeforeIsPrevious(log', i);
      if i < |log| {
        assert GoodRow(h, log, log[i]);
        BeforeIsPrevious(log, i);
        assert log'[..i] == log[..i];
      } else {
        assert log'[..i] == log;
      }
    }
  }

  class AuditService {
    const h: Hasher
    var log: seq<Row>

    ghost predicate Valid()
      reads this
    {
      CollisionFree(h) && ValidLog(h, log)
    }

    constructor (h: Hasher)
      requires CollisionFree(h)
      ensures Valid() && log == [] && this.h == h
    {
      this.h := h;
      log := [];
    }

    /** record: `no` is the next database sequence number, `kept` the meta as the JSON column gives it back. */
    method Record(actorId: Option<Text>, action: Text, entity: Text, entityId: Option<Text>, meta: Value,
                  kept: Value, createdAt: Text, no: nat) returns (r: Result<Row, Error>)
      requires Valid() && JsonMeta(meta) && JsonMeta(kept)
      requires Meaning(kept) == Meaning(meta) && (Accepted(meta) ==> Accepted(kept))
      requires forall i :: 0 <= i < |log| ==> log[i].no < no
      modifies this
      ensures Valid()
      ensures r.Ok? <==> Accepted(meta)
      ensures r.Err? ==> log == old(log)
      ensures r.Ok? ==> log == old(log) + [r.value] && r.value.no == no
      ensures r.Ok? ==> r.value.entry == Entry(actorId, action, entity, entityId, kept, Tip(old(log)), createdAt)
    {
      hide HashOf;
      var prevHash := Tip(log);
      var material := Entry(actorId, action, entity, entityId, meta, prevHash, createdAt);
      MaterialHashes(h, material);
      var hash := HashOf(h, material);
      if hash.Err? {
        return Err(hash.error);
      }
      var row := Row(no, material.(meta := kept), Some(hash.value));
      HashDetermines(h, material, row.entry);
      AppendValid(h, log, row);
      log := log + [row];
      return Ok(row);
    }
  }

  lemma MaterialHashes(h: Hasher, e: Entry)
    requires JsonMeta(e.meta)
    ensures HashOf(h, e).Ok? <==> Accepted(e.meta)
  {
    MaterialWellFormed(e);
    RejectsExactly(h.num, Material(e));
  }

  // ---- concurrent recorders under the advisory lock ----

  datatype Recorder = Idle | Locked | HasRead(prev: Option<Text>)

  /** held is the transaction-scoped advisory lock; recorders not listed are idle. */
  datatype System = System(log: seq<Row>, held: Option<int>, recorders: map<int, Recorder>)

  function PhaseOf(s: System, p: int): Recorder {
    if p in s.recorders then s.recorders[p] else Idle
  }

  /** Abort: the transaction fails, and its end frees the lock. */
  datatype Event = Acquire(p: int) | ReadTip(p: int) | Commit(p: int, row: Row) | Abort(p: int)

  ghost predicate SystemStep(h: Hasher, s: System, e: Event, s': System) {
    match e
    case Acquire(p) =>
      s.held.None? && PhaseOf(s, p) == Idle && s' == s.(held := Some(p), recorders := s.recorders[p := Locked])
    case ReadTip(p) =>
      PhaseOf(s, p) == Locked && s' == s.(recorders := s.recorders[p := HasRead(Tip(s.log))])
    case Commit(p, row) =>
      PhaseOf(s, p).HasRead? && row.entry.prevHash == PhaseOf(s, p).prev && Hashable(row.entry) &&
      HashOf(h, row.entry).Ok? && row.hash == Some(HashOf(h, row.entry).value) &&
      (forall i :: 0 <= i < |s.log| ==> s.log[i].no < row.no) &&
      s' == System(s.log + [row], None, s.recorders[p := Idle])
    case Abort(p) =>
      PhaseOf(s, p) != Idle && s' == System(s.log, None, s.recorders[p := Idle])
  }

  /** Only the lock holder is under way, and what it has read is still the last hash. */
  ghost predicate SystemInv(h: Hasher, s: System) {
    && ValidLog(h, s.log)
    && (forall p :: PhaseOf(s, p) != Idle ==> s.held == Some(p))
    && (forall p :: PhaseOf(s, p).HasRead? ==> PhaseOf(s, p).prev == Tip(s.log))
  }

  ghost predicate Execution(h: Hasher, states: seq<System>, events: seq<Event>) {
    |states| == |events| + 1 && states[0] == System([], None, map[]) &&
    forall i :: 0 <= i < |events| ==> SystemStep(h, states[i], events[i], states[i + 1])
  }

  lemma StepKeepsInv(h: Hasher, s: System, e: Event, s': System)
    requires SystemInv(h, s) && SystemStep(h, s, e, s')
    ensures SystemInv(h, s')
  {
    hide ValidLog, HashOf;
    if e.Commit? {
      AppendValid(h, s.log, e.row);
    }
    forall q | PhaseOf(s', q) != Idle
      ensures s'.held == Some(q) && (PhaseOf(s', q).HasRead? ==> PhaseOf(s', q).prev == Tip(s'.log))
    {
      assert q == e.p || PhaseOf(s', q) == PhaseOf(s, q);
    }
  }

  /** However the recorders interleave, the log they leave is one verifyChain accepts. */
  lemma {:induction false} LockedRecordsKeepChain(h: Hasher, states: seq<System>, events: seq<Event>, i: nat)
    requires CollisionFree(h) && Execution(h, states, events) && i <= |events|
    ensures SystemInv(h, states[i])
  {
    hide SystemStep;
    if i > 0 {
      LockedRecordsKeepChain(h, states, events, i - 1);
      StepKeepsInv(h, states[i - 1], events[i - 1], states[i]);
    }
  }

  /** Without the lock two recorders may read the same last hash; the second row then breaks the chain. */
  lemma ForkDetected(h: Hasher, log: seq<Row>, r1: Row, r2: Row)
    requires CollisionFree(h) && ValidLog(h, log) && ValidLog(h, log + [r1])
    requires r2.entry.prevHash == Tip(log)
    ensures !ValidLog(h, log + [r1, r2])
  {
    hide HashOf;
    var forked := log + [r1, r2];
    if ValidLog(h, forked) {
      LastRow(h, forked);
      assert forked[..|forked| - 1] == log + [r1];
      assert Tip(log + [r1]) == Tip(log);
      TipDeterminesLog(h, log, log + [r1]);
    }
  }
}
