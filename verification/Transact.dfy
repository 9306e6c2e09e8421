/** What transact.go does to the tables, as functions on values. Each step either
    goes on or stops with an error, and says what it leaves behind in both cases:
    withWriteConn (pool.go) never hands the error to the deferred end of the SQLite
    transaction, so a failing batch commits the datoms before the failure. */
module Transact {
  import opened Prelude
  import opened Values
  import opened Store

  datatype Entity = ETemp(name: Bytes) | EId(id: int) | ELookup(ident: Bytes, v: Value) | EOther

  datatype TxDatom = TxDatom(e: Entity, a: Bytes, v: Value, retract: bool)

  datatype Datom = Datom(e: int, a: int, v: Value, tx: int, added: bool)

  datatype TxError =
    | UnknownAttribute | NotIdentity | EncodeFailed | NoSuchEntity | UnsupportedEntity
    | TempIDConflict | IdentityHeld | DuplicateTx
    | DuplicateRetraction(f: Fact) | DuplicateReplacement(f: Fact) | DuplicateAssertion(f: Fact)

  datatype Fold<S> = Next(s: S) | Stop(s: S, err: TxError)

  // ---------------------------------------------------------------------
  // Lookups
  // ---------------------------------------------------------------------

  predicate Holds(c: Current, a: int, v: Bytes, exclude: int, e: int) {
    Fact(e, a, v) in c && e != exclude
  }

  /** lookupEntity: some holder other than `exclude`. Passing 0 does exclude entity 0. */
  ghost function LookupEntity(c: Current, a: int, v: Bytes, exclude: int): (r: Option<int>)
    ensures r.Some? ==> Holds(c, a, v, exclude, r.value)
    ensures r.None? ==> forall e :: !Holds(c, a, v, exclude, e)
  {
    if exists e :: Holds(c, a, v, exclude, e) then
      var e :| Holds(c, a, v, exclude, e);
      Some(e)
    else None
  }

  ghost function ResolveLookupRef(s: Schema, c: Current, ident: Bytes, v: Value): Result<int, TxError> {
    if ident !in s.byIdent then Err(UnknownAttribute)
    else if !s.byIdent[ident].identity then Err(NotIdentity)
    else match EncodeValue(v, s.byIdent[ident].valueType)
      case Err(_) => Err(EncodeFailed)
      case Ok(b) =>
        match LookupEntity(c, s.byIdent[ident].id, b, 0)
        case None => Err(NoSuchEntity)
        case Some(e) => Ok(e)
  }

  // ---------------------------------------------------------------------
  // First pass: TempIDs that assert Identity values
  // ---------------------------------------------------------------------

  datatype Key = Key(a: int, v: Bytes)

  datatype Upsert = Upsert(tempids: map<Bytes, int>, pending: map<Key, int>, nextEID: int)

  /** The datoms the first pass looks at. */
  predicate Upserts(s: Schema, td: TxDatom) {
    td.e.ETemp? && !td.retract && td.a in s.byIdent && s.byIdent[td.a].identity
  }

  /** Makes sure that `pending` has an entity for the key. */
  ghost function Prepare(c: Current, u: Upsert, t: Bytes, k: Key): Upsert {
    if k in u.pending then u
    else match LookupEntity(c, k.a, k.v, 0)
      case Some(e) => u.(pending := u.pending[k := e])
      case None =>
        if t in u.tempids then u.(pending := u.pending[k := u.tempids[t]])
        else u.(pending := u.pending[k := u.nextEID], nextEID := u.nextEID + 1)
  }

  ghost function UpsertDatom(s: Schema, c: Current, u: Upsert, td: TxDatom): Fold<Upsert> {
    if !Upserts(s, td) then Next(u)
    else match EncodeValue(td.v, s.byIdent[td.a].valueType)
      case Err(_) => Stop(u, EncodeFailed)
      case Ok(b) =>
        var k := Key(s.byIdent[td.a].id, b);
        var u1 := Prepare(c, u, td.e.name, k);
        if td.e.name in u1.tempids && u1.tempids[td.e.name] != u1.pending[k] then Stop(u1, TempIDConflict)
        else Next(u1.(tempids := u1.tempids[td.e.name := u1.pending[k]]))
  }

  ghost function UpsertAll(s: Schema, c: Current, u: Upsert, batch: seq<TxDatom>): Fold<Upsert>
    decreases |batch|
  {
    if batch == [] then Next(u)
    else match UpsertDatom(s, c, u, batch[0])
      case Stop(u1, err) => Stop(u1, err)
      case Next(u1) => UpsertAll(s, c, u1, batch[1..])
  }

  // ---------------------------------------------------------------------
  // Second pass: the datoms
  // ---------------------------------------------------------------------

  datatype Context = Context(schema: Schema, tx: int, validFrom: int, dedup: bool)

  datatype DatomKey = DatomKey(fact: Fact, retract: bool)

  datatype Batch = Batch(tables: Tables, tempids: map<Bytes, int>, seen: set<DatomKey>, nextEID: int,
                         produced: seq<Datom>)

  ghost function ResolveEntity(c: Context, b: Batch, e: Entity): Result<(int, Batch), TxError> {
    match e
    case ETemp(t) =>
      if t in b.tempids then Ok((b.tempids[t], b))
      else Ok((b.nextEID, b.(tempids := b.tempids[t := b.nextEID], nextEID := b.nextEID + 1)))
    case EId(n) => Ok((n, b))
    case ELookup(ident, v) =>
      (match ResolveLookupRef(c.schema, b.tables.current, ident, v)
       case Err(err) => Err(err)
       case Ok(n) => Ok((n, b)))
    case EOther => Err(UnsupportedEntity)
  }

  function RowFor(c: Context, attr: Attribute, f: Fact, v: Value, added: bool): Row {
    Row(f, attr.valueType, BindTypedColumns(v, attr.valueType), c.tx, added, c.validFrom)
  }

  /** INSERT INTO datoms, with the datom reported to the caller. */
  function Logged(b: Batch, r: Row, v: Value): Batch {
    b.(tables := b.tables.(datoms := b.tables.datoms + [r]),
       produced := b.produced + [Datom(r.fact.e, r.fact.a, v, r.tx, r.added)])
  }

  function WithCurrent(b: Batch, c: Current): Batch {
    b.(tables := b.tables.(current := c))
  }

  /** The delete comes before the insert into the log, which may fail. */
  ghost function Retract(c: Context, b: Batch, attr: Attribute, f: Fact, v: Value): Fold<Batch> {
    var b1 := WithCurrent(b, b.tables.current - {f});
    var r := RowFor(c, attr, f, v, false);
    if Duplicates(b.tables.datoms, r) then Stop(b1, DuplicateRetraction(f)) else Next(Logged(b1, r, v))
  }

  predicate ValueIs(c: Current, e: int, a: int, v: Bytes) {
    Fact(e, a, v) in c
  }

  function DeleteEA(c: Current, e: int, a: int): Current {
    map g | g in c && !(g.e == e && g.a == a) :: c[g]
  }

  /** CardOne: logs a retraction of one existing value and deletes every value. */
  ghost function Replace(c: Context, b: Batch, attr: Attribute, e: int): Fold<Batch> {
    if !exists v :: ValueIs(b.tables.current, e, attr.id, v) then Next(b)
    else
      var v :| ValueIs(b.tables.current, e, attr.id, v);
      ReplaceValue(c, b, attr, Fact(e, attr.id, v))
  }

  function ReplaceValue(c: Context, b: Batch, attr: Attribute, f: Fact): Fold<Batch> {
    var decoded := DecodeOrNil(f.v, attr.valueType);
    var r := RowFor(c, attr, f, decoded, false);
    if Duplicates(b.tables.datoms, r) then Stop(b, DuplicateReplacement(f))
    else Next(WithCurrent(Logged(b, r, decoded), DeleteEA(b.tables.current, f.e, f.a)))
  }

  ghost function Insert(c: Context, b: Batch, attr: Attribute, f: Fact, v: Value): Fold<Batch> {
    var r := RowFor(c, attr, f, v, true);
    if Duplicates(b.tables.datoms, r) then Stop(b, DuplicateAssertion(f))
    else Next(WithCurrent(Logged(b, r, v), b.tables.current[f := CellOf(r)]))
  }

  ghost function Assert(c: Context, b: Batch, attr: Attribute, f: Fact, v: Value): Fold<Batch> {
    if attr.identity && LookupEntity(b.tables.current, attr.id, f.v, f.e).Some? then Stop(b, IdentityHeld)
    else match (if attr.cardinality == CardOne then Replace(c, b, attr, f.e) else Next(b))
      case Stop(b1, err) => Stop(b1, err)
      case Next(b1) => Insert(c, b1, attr, f, v)
  }

  ghost function StepDatom(c: Context, b: Batch, td: TxDatom): Fold<Batch> {
    if td.a !in c.schema.byIdent then Stop(b, UnknownAttribute)
    else
      var attr := c.schema.byIdent[td.a];
      match ResolveEntity(c, b, td.e)
      case Err(err) => Stop(b, err)
      case Ok((e, b1)) =>
        match EncodeValue(td.v, attr.valueType)
        case Err(_) => Stop(b1, EncodeFailed)
        case Ok(v) => Admit(c, b1, attr, Fact(e, attr.id, v), td)
  }

  /** Duplicate suppression, then the retraction or assertion itself. */
  ghost function Admit(c: Context, b: Batch, attr: Attribute, f: Fact, td: TxDatom): Fold<Batch> {
    var key := DatomKey(f, td.retract);
    if c.dedup && key in b.seen then Next(b)
    else
      var b1 := if c.dedup then b.(seen := b.seen + {key}) else b;
      if td.retract then Retract(c, b1, attr, f, td.v) else Assert(c, b1, attr, f, td.v)
  }

  ghost function RunAll(c: Context, b: Batch, batch: seq<TxDatom>): Fold<Batch>
    decreases |batch|
  {
    if batch == [] then Next(b)
    else match StepDatom(c, b, batch[0])
      case Stop(b1, err) => Stop(b1, err)
      case Next(b1) => RunAll(c, b1, batch[1..])
  }

  // ---------------------------------------------------------------------
  // The whole transaction
  // ---------------------------------------------------------------------

  datatype DbState = DbState(tables: Tables, schema: Schema, nextTx: int, nextEID: int)

  datatype TxResult = TxResult(txID: int, txTime: int, tempids: map<Bytes, int>, datoms: seq<Datom>)

  ghost function FirstPass(s: DbState, batch: seq<TxDatom>): Fold<Upsert> {
    UpsertAll(s.schema, s.tables.current, Upsert(map[], map[], s.nextEID), batch)
  }

  /** The state in which the second pass starts. */
  function Begun(s: DbState, u: Upsert, tx: int, txTime: int): Batch {
    Batch(s.tables.(transactions := s.tables.transactions[tx := txTime]), u.tempids, {}, u.nextEID, [])
  }

  function ContextOf(s: DbState, u: Upsert, tx: int, validFrom: int): Context {
    Context(s.schema, tx, validFrom, u.pending != map[])
  }

  /** The body of transact for an already allocated transaction id. */
  ghost function Commit(s: DbState, tx: int, batch: seq<TxDatom>, txTime: int, validFrom: int): (DbState,
                        Result<TxResult, TxError>) {
    match FirstPass(s, batch)
    case Stop(u, err) => (s.(nextEID := u.nextEID), Err(err))
    case Next(u) =>
      if tx in s.tables.transactions then (s.(nextEID := u.nextEID), Err(DuplicateTx))
      else match RunAll(ContextOf(s, u, tx, validFrom), Begun(s, u, tx, txTime), batch)
        case Stop(b, err) => (s.(tables := b.tables, nextEID := b.nextEID), Err(err))
        case Next(b) => (s.(tables := b.tables, nextEID := b.nextEID), Ok(TxResult(tx, txTime, b.tempids, b.produced)))
  }
}
