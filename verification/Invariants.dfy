/** What every datom of every transaction keeps, whether the batch succeeds or not:
    cardinality, identity, typed columns, and the materialized view. */
module Invariants {
  import opened Prelude
  import opened Values
  import opened Store
  import opened Transact

  /** The rows of the transaction in progress end the log and share its valid_from. */
  ghost predicate OwnRows(c: Context, log: seq<Row>) {
    && (forall i, j :: 0 <= i <= j < |log| && log[i].tx == c.tx ==> log[j].tx == c.tx)
    && (forall i :: 0 <= i < |log| && log[i].tx == c.tx ==> log[i].validFrom == c.validFrom)
  }

  /** A batch in progress: its tables are in order and its transaction is recorded. */
  ghost predicate Working(c: Context, b: Batch) {
    TablesValid(c.schema, b.tables) && c.tx in b.tables.transactions && OwnRows(c, b.tables.datoms)
  }

  predicate Own(c: Context, r: Row) {
    r.tx == c.tx && r.validFrom == c.validFrom
  }

  /** Only rows of this transaction were appended, and the caller is told of each. */
  ghost predicate Grown(c: Context, b: Batch, b': Batch) {
    && b.tables.datoms <= b'.tables.datoms
    && b'.tables.transactions == b.tables.transactions
    && b.nextEID <= b'.nextEID
    && (forall i :: |b.tables.datoms| <= i < |b'.tables.datoms| ==> Own(c, b'.tables.datoms[i]))
    && b'.produced == b.produced + Reported(b'.tables.datoms[|b.tables.datoms|..])
  }

  function Reported(rows: seq<Row>): seq<Datom> {
    seq(|rows|, i requires 0 <= i < |rows| => DatomOf(rows[i]))
  }

  function DatomOf(r: Row): Datom {
    Datom(r.fact.e, r.fact.a, DecodeOrNil(r.fact.v, r.vtype), r.tx, r.added)
  }

  lemma {:induction false} GrownTrans(c: Context, b0: Batch, b1: Batch, b2: Batch)
    requires Grown(c, b0, b1) && Grown(c, b1, b2)
    ensures Grown(c, b0, b2)
  {
    var n0, n1 := |b0.tables.datoms|, |b1.tables.datoms|;
    var l1, l2 := b1.tables.datoms, b2.tables.datoms;
    assert l2[n0..] == l1[n0..] + l2[n1..];
    assert Reported(l2[n0..]) == Reported(l1[n0..]) + Reported(l2[n1..]);
    forall i | n0 <= i < |l2| ensures Own(c, l2[i]) {
      if i < n1 {
        assert l1[i] == l2[i];
      }
    }
  }

  /** The row gap left by a failing retraction: the fact is gone from current_datoms
      although the log, which already retracted it earlier in this transaction,
      asserted it again since. */
  ghost predicate ReassertedIn(log: seq<Row>, tx: int, f: Fact) {
    exists i, j :: 0 <= i < j < |log|
                   && log[i].fact == f && log[i].tx == tx && !log[i].added
                   && log[j].fact == f && log[j].tx == tx && log[j].added
  }

  ghost predicate Gap(c: Context, b: Batch, err: TxError) {
    err.DuplicateRetraction? && ReassertedIn(b.tables.datoms, c.tx, err.f)
  }

  // ---------------------------------------------------------------------
  // The statements
  // ---------------------------------------------------------------------

  lemma {:induction false} LogKeepsDistinct(log: seq<Row>, r: Row)
    requires DistinctRows(log) && !Duplicates(log, r)
    ensures DistinctRows(log + [r])
  {
  }

  lemma {:induction false} LoggedGrows(c: Context, b: Batch, r: Row)
    requires Own(c, r)
    ensures Grown(c, b, Logged(b, r, DatomOf(r).v))
  {
    assert DatomOf(r) == Datom(r.fact.e, r.fact.a, DatomOf(r).v, r.tx, r.added);
    hide DatomOf;
    var log := b.tables.datoms + [r];
    assert log[|b.tables.datoms|..] == [r];
    assert Reported([r]) == [DatomOf(r)];
  }

  lemma {:induction false} LogKeeps(c: Context, b: Batch, attr: Attribute, f: Fact, v: Value, added: bool)
    requires Working(c, b)
    requires f.a in c.schema.byID && c.schema.byID[f.a] == attr
    requires WellFormed(f.v, attr.valueType) && DecodeOrNil(f.v, attr.valueType) == v
    requires !Duplicates(b.tables.datoms, RowFor(c, attr, f, v, added))
    ensures var b' := Logged(b, RowFor(c, attr, f, v, added), v);
            Working(c, b') && Grown(c, b, b') && RowAgrees(c.schema, RowFor(c, attr, f, v, added))
  {
    var r := RowFor(c, attr, f, v, added);
    var log := b.tables.datoms + [r];
    assert RowAgrees(c.schema, r) && DatomOf(r).v == v;
    LoggedGrows(c, b, r);
    hide Grown, DatomOf, RowAgrees, WellFormed, DecodeOrNil, Agrees, DistinctRows, RowFor, CardOneHolds,
      IdentityHolds, CellAgrees, Reported, Duplicates;
    LogKeepsDistinct(b.tables.datoms, r);
    assert forall x :: x in log ==> x in b.tables.datoms || x == r;
  }

  lemma {:induction false} DecodedAgain(v: Value, t: ValueType)
    requires EncodeValue(v, t).Ok?
    ensures WellFormed(EncodeValue(v, t).value, t)
    ensures DecodeOrNil(EncodeValue(v, t).value, t) == v
  {
    ValueRoundTrip(v, t);
  }

  lemma {:induction false} SubsetKeeps(s: Schema, c: Current, d: Current)
    requires CardOneHolds(s, c) && IdentityHolds(s, c)
    requires forall f :: f in d ==> f in c
    ensures CardOneHolds(s, d) && IdentityHolds(s, d)
  {
  }

  /** What one datom guarantees once its entity and value are known: the invariants
      hold whether it succeeds or not, and the view survives except in the gap. */
  ghost predicate Kept(c: Context, b: Batch, r: Fold<Batch>) {
    && Working(c, r.s) && Grown(c, b, r.s)
    && r.s.tempids == b.tempids && r.s.nextEID == b.nextEID
    && ViewKept(c, b, r)
  }

  ghost predicate ViewKept(c: Context, b: Batch, r: Fold<Batch>) {
    IsView(b.tables) ==> (IsView(r.s.tables) <==> r.Next? || !Gap(c, r.s, r.err))
  }

  lemma {:induction false} WithoutFactKeeps(c: Context, b: Batch, f: Fact)
    requires Working(c, b)
    ensures var b1 := WithCurrent(b, b.tables.current - {f}); Working(c, b1) && Grown(c, b, b1)
  {
    hide OwnRows, RowAgrees, CellAgrees, DistinctRows;
    SubsetKeeps(c.schema, b.tables.current, b.tables.current - {f});
    assert Reported(b.tables.datoms[|b.tables.datoms|..]) == [];
  }

  lemma {:induction false} RetractView(c: Context, b: Batch, attr: Attribute, f: Fact, v: Value)
    requires DistinctRows(b.tables.datoms) && OwnRows(c, b.tables.datoms)
    ensures ViewKept(c, b, Retract(c, b, attr, f, v))
  {
    hide DistinctRows, OwnRows, ReassertedIn;
    var row := RowFor(c, attr, f, v, false);
    if Duplicates(b.tables.datoms, row) {
      RetractGap(c, b.tables.datoms, row);
      assert f !in b.tables.current ==> b.tables.current - {f} == b.tables.current;
    } else {
      ReplaySnoc(b.tables.datoms, row);
    }
  }

  lemma {:induction false} RetractKeeps(c: Context, b: Batch, attr: Attribute, f: Fact, v: Value)
    requires Working(c, b)
    requires f.a in c.schema.byID && c.schema.byID[f.a] == attr
    requires WellFormed(f.v, attr.valueType) && DecodeOrNil(f.v, attr.valueType) == v
    ensures Kept(c, b, Retract(c, b, attr, f, v))
  {
    RetractView(c, b, attr, f, v);
    hide TablesValid, OwnRows, WellFormed, DecodeOrNil, RowFor, RowAgrees, Grown, ViewKept, Duplicates;
    var b1 := WithCurrent(b, b.tables.current - {f});
    var row := RowFor(c, attr, f, v, false);
    WithoutFactKeeps(c, b, f);
    if !Duplicates(b.tables.datoms, row) {
      LogKeeps(c, b1, attr, f, v, false);
      GrownTrans(c, b, b1, Logged(b1, row, v));
    }
  }

  lemma {:induction false} ReassertedIsLast(c: Context, log: seq<Row>, f: Fact)
    requires DistinctRows(log) && OwnRows(c, log) && ReassertedIn(log, c.tx, f)
    ensures LastIsAssertion(log, f)
  {
    var i, j :| 0 <= i < j < |log| && log[i].fact == f && log[i].tx == c.tx && !log[i].added
                && log[j].fact == f && log[j].tx == c.tx && log[j].added;
    forall k | j < k < |log| ensures log[k].fact != f {
      assert !SameKey(log[i], log[k]) && !SameKey(log[j], log[k]);
      assert log[k].tx == c.tx && log[k].validFrom == log[i].validFrom == log[j].validFrom;
    }
  }

  /** A retraction that duplicates a logged one finds its fact current exactly when
      the fact was asserted again after the logged retraction. */
  lemma {:induction false} RetractGap(c: Context, log: seq<Row>, row: Row)
    requires DistinctRows(log) && OwnRows(c, log)
    requires row.tx == c.tx && row.validFrom == c.validFrom && !row.added && Duplicates(log, row)
    ensures row.fact in Replay(log) <==> ReassertedIn(log, c.tx, row.fact)
  {
    var f := row.fact;
    ReplayKeepsLast(log, f);
    if LastIsAssertion(log, f) {
      var d :| 0 <= d < |log| && SameKey(log[d], row);
      var i :| 0 <= i < |log| && log[i].fact == f && log[i].added && forall j :: i < j < |log| ==> log[j].fact != f;
      assert d < i && log[i].tx == c.tx;
    }
    if ReassertedIn(log, c.tx, f) {
      ReassertedIsLast(c, log, f);
    }
  }

  // ---------------------------------------------------------------------
  // Assertions
  // ---------------------------------------------------------------------

  lemma {:induction false} GrownSelf(c: Context, b: Batch)
    ensures Grown(c, b, b)
  {
    assert Reported(b.tables.datoms[|b.tables.datoms|..]) == [];
  }

  ghost predicate NoOther(c: Current, f: Fact) {
    forall g :: g in c && g.e == f.e && g.a == f.a ==> g == f
  }

  lemma {:induction false} DeleteEAOfOne(c: Current, f: Fact)
    requires NoOther(c, f)
    ensures DeleteEA(c, f.e, f.a) == c - {f}
  {
  }

  lemma {:induction false} ReplaceValueKeeps(c: Context, b: Batch, attr: Attribute, f: Fact)
    requires Working(c, b)
    requires f.a in c.schema.byID && c.schema.byID[f.a] == attr
    requires f in b.tables.current && NoOther(b.tables.current, f)
    ensures var r := ReplaceValue(c, b, attr, f);
            && Kept(c, b, r)
            && r.s.tables.current == (if r.Next? then b.tables.current - {f} else b.tables.current)
  {
    GrownSelf(c, b);
    assert CellAgrees(c.schema, f, b.tables.current[f]);
    var decoded := DecodeOrNil(f.v, attr.valueType);
    var row := RowFor(c, attr, f, decoded, false);
    if !Duplicates(b.tables.datoms, row) {
      DeleteEAOfOne(b.tables.current, f);
      var b1 := Logged(b, row, decoded);
      LogKeeps(c, b, attr, f, decoded, false);
      ReplaySnoc(b.tables.datoms, row);
      hide TablesValid, OwnRows, Duplicates, Grown;
      WithoutFactKeeps(c, b1, f);
      GrownTrans(c, b, b1, WithCurrent(b1, b1.tables.current - {f}));
    }
  }

  /** CardOne: one logged retraction accounts for the whole delete, because there was
      only one value to delete. */
  lemma {:induction false} ReplaceKeeps(c: Context, b: Batch, attr: Attribute, e: int)
    requires Working(c, b)
    requires attr.id in c.schema.byID && c.schema.byID[attr.id] == attr && attr.cardinality == CardOne
    ensures var r := Replace(c, b, attr, e);
            && Kept(c, b, r)
            && r.s.tables.current.Keys <= b.tables.current.Keys
            && (r.Next? ==> forall v :: !ValueIs(r.s.tables.current, e, attr.id, v))
            && (r.Stop? ==> r.err.DuplicateReplacement?)
  {
    GrownSelf(c, b);
    var cur := b.tables.current;
    if exists v :: ValueIs(cur, e, attr.id, v) {
      var v :| ValueIs(cur, e, attr.id, v) && Replace(c, b, attr, e) == ReplaceValue(c, b, attr, Fact(e, attr.id, v));
      ReplaceValueKeeps(c, b, attr, Fact(e, attr.id, v));
      hide Kept, TablesValid;
    }
  }

  lemma {:induction false} CurrentInsertKeeps(s: Schema, c: Current, f: Fact, cell: Cell)
    requires CardOneHolds(s, c) && IdentityHolds(s, c)
    requires f.a in s.byID
    requires s.byID[f.a].cardinality == CardOne ==> forall v :: !ValueIs(c, f.e, f.a, v)
    requires s.byID[f.a].identity ==> forall e :: !Holds(c, f.a, f.v, f.e, e)
    ensures CardOneHolds(s, c[f := cell]) && IdentityHolds(s, c[f := cell])
  {
    forall g | g in c && g.a == f.a
      ensures s.byID[f.a].cardinality == CardOne ==> g.e != f.e
      ensures s.byID[f.a].identity && g.v == f.v ==> g == f
    {
      assert ValueIs(c, g.e, g.a, g.v);
      assert g.v == f.v && g.e != f.e ==> Holds(c, f.a, f.v, f.e, g.e);
    }
  }

  lemma {:induction false} WithFactKeeps(c: Context, b: Batch, attr: Attribute, f: Fact, cell: Cell)
    requires Working(c, b)
    requires CellAgrees(c.schema, f, cell) && c.schema.byID[f.a] == attr
    requires attr.cardinality == CardOne ==> forall w :: !ValueIs(b.tables.current, f.e, f.a, w)
    requires attr.identity ==> forall e :: !Holds(b.tables.current, f.a, f.v, f.e, e)
    ensures var b1 := WithCurrent(b, b.tables.current[f := cell]); Working(c, b1) && Grown(c, b, b1)
  {
    hide OwnRows, RowAgrees, Agrees, DistinctRows;
    CurrentInsertKeeps(c.schema, b.tables.current, f, cell);
    assert Reported(b.tables.datoms[|b.tables.datoms|..]) == [];
  }

  lemma {:induction false} InsertKeeps(c: Context, b: Batch, attr: Attribute, f: Fact, v: Value)
    requires Working(c, b)
    requires f.a in c.schema.byID && c.schema.byID[f.a] == attr
    requires WellFormed(f.v, attr.valueType) && DecodeOrNil(f.v, attr.valueType) == v
    requires attr.cardinality == CardOne ==> forall w :: !ValueIs(b.tables.current, f.e, f.a, w)
    requires attr.identity ==> forall e :: !Holds(b.tables.current, f.a, f.v, f.e, e)
    ensures Kept(c, b, Insert(c, b, attr, f, v))
  {
    GrownSelf(c, b);
    var row := RowFor(c, attr, f, v, true);
    if !Duplicates(b.tables.datoms, row) {
      var b1 := Logged(b, row, v);
      LogKeeps(c, b, attr, f, v, true);
      assert CellAgrees(c.schema, f, CellOf(row));
      ReplaySnoc(b.tables.datoms, row);
      hide TablesValid, OwnRows, Duplicates, Grown, Agrees;
      WithFactKeeps(c, b1, attr, f, CellOf(row));
      GrownTrans(c, b, b1, WithCurrent(b1, b1.tables.current[f := CellOf(row)]));
    }
  }

  lemma {:induction false} KeptTrans(c: Context, b: Batch, b1: Batch, r: Fold<Batch>)
    requires Kept(c, b, Next(b1)) && Kept(c, b1, r)
    ensures Kept(c, b, r)
  {
    hide Working, Grown, IsView, Gap;
    GrownTrans(c, b, b1, r.s);
  }

  lemma {:induction false} AssertKeeps(c: Context, b: Batch, attr: Attribute, f: Fact, v: Value)
    requires Working(c, b)
    requires f.a in c.schema.byID && c.schema.byID[f.a] == attr && attr.id == f.a
    requires WellFormed(f.v, attr.valueType) && DecodeOrNil(f.v, attr.valueType) == v
    ensures Kept(c, b, Assert(c, b, attr, f, v))
  {
    hide Working, Grown, IsView, Insert, Replace, WellFormed, DecodeOrNil;
    GrownSelf(c, b);
    if !(attr.identity && LookupEntity(b.tables.current, attr.id, f.v, f.e).Some?) {
      assert attr.identity ==> forall e :: !Holds(b.tables.current, f.a, f.v, f.e, e);
      if attr.cardinality == CardOne {
        ReplaceKeeps(c, b, attr, f.e);
        var r := Replace(c, b, attr, f.e);
        if r.Next? {
          forall e | attr.identity ensures !Holds(r.s.tables.current, f.a, f.v, f.e, e) {
            assert !Holds(b.tables.current, f.a, f.v, f.e, e);
          }
          InsertKeeps(c, r.s, attr, f, v);
          KeptTrans(c, b, r.s, Insert(c, r.s, attr, f, v));
        }
      } else {
        InsertKeeps(c, b, attr, f, v);
      }
    }
  }

  // ---------------------------------------------------------------------
  // Datoms and batches
  // ---------------------------------------------------------------------

  lemma {:induction false} SeenIsAside(c: Context, b: Batch, seen: set<DatomKey>, r: Fold<Batch>)
    requires Kept(c, b.(seen := seen), r)
    ensures Kept(c, b, r)
  {
    hide Working, IsView, Gap, Reported;
  }

  lemma {:induction false} AdmitKeeps(c: Context, b: Batch, attr: Attribute, f: Fact, td: TxDatom)
    requires Working(c, b)
    requires f.a in c.schema.byID && c.schema.byID[f.a] == attr && attr.id == f.a
    requires WellFormed(f.v, attr.valueType) && DecodeOrNil(f.v, attr.valueType) == td.v
    ensures Kept(c, b, Admit(c, b, attr, f, td))
  {
    GrownSelf(c, b);
    var key := DatomKey(f, td.retract);
    if !(c.dedup && key in b.seen) {
      var b1 := if c.dedup then b.(seen := b.seen + {key}) else b;
      hide TablesValid, OwnRows, Kept, Retract, Assert, WellFormed, DecodeOrNil;
      if td.retract {
        RetractKeeps(c, b1, attr, f, td.v);
        SeenIsAside(c, b, b1.seen, Retract(c, b1, attr, f, td.v));
      } else {
        AssertKeeps(c, b1, attr, f, td.v);
        SeenIsAside(c, b, b1.seen, Assert(c, b1, attr, f, td.v));
      }
    }
  }

  lemma {:induction false} ResolveKeeps(c: Context, b: Batch, e: Entity)
    requires Working(c, b)
    ensures var r := ResolveEntity(c, b, e);
            r.Ok? ==> Working(c, r.value.1) && Grown(c, b, r.value.1) && r.value.1.tables == b.tables
  {
    hide TablesValid, OwnRows, ResolveLookupRef;
    GrownSelf(c, b);
  }

  /** Every datom keeps the table invariants, successful or not, and keeps the view
      unless it is a retraction that fails in the gap. */
  lemma {:induction false} StepKeeps(c: Context, b: Batch, td: TxDatom)
    requires Working(c, b)
    ensures var r := StepDatom(c, b, td); Working(c, r.s) && Grown(c, b, r.s) && ViewKept(c, b, r)
  {
    GrownSelf(c, b);
    if td.a in c.schema.byIdent {
      var attr := c.schema.byIdent[td.a];
      assert c.schema.Valid();
      hide TablesValid, OwnRows, Grown, Admit, WellFormed, DecodeOrNil, EncodeValue, Gap, IsView, ResolveEntity;
      ResolveKeeps(c, b, td.e);
      var re := ResolveEntity(c, b, td.e);
      if re.Ok? {
        var (e, b1) := re.value;
        var enc := EncodeValue(td.v, attr.valueType);
        if enc.Ok? {
          DecodedAgain(td.v, attr.valueType);
          AdmitKeeps(c, b1, attr, Fact(e, attr.id, enc.value), td);
          GrownTrans(c, b, b1, Admit(c, b1, attr, Fact(e, attr.id, enc.value), td).s);
        }
      }
    }
  }

  /** The same for a whole batch. */
  lemma {:induction false} RunKeeps(c: Context, b: Batch, batch: seq<TxDatom>)
    requires Working(c, b)
    ensures var r := RunAll(c, b, batch); Working(c, r.s) && Grown(c, b, r.s) && ViewKept(c, b, r)
    decreases |batch|
  {
    hide TablesValid, OwnRows, Grown, Gap, IsView, StepDatom;
    GrownSelf(c, b);
    if batch != [] {
      StepKeeps(c, b, batch[0]);
      var r := StepDatom(c, b, batch[0]);
      if r.Next? {
        RunKeeps(c, r.s, batch[1..]);
        GrownTrans(c, b, r.s, RunAll(c, r.s, batch[1..]).s);
      }
    }
  }

  // ---------------------------------------------------------------------
  // Whole transactions
  // ---------------------------------------------------------------------

  datatype SchemaError = DifferentDefinition

  ghost predicate IsMaxOr0(s: set<int>, m: int) {
    if s == {} then m == 0 else m in s && forall x :: x in s ==> x <= m
  }

  lemma {:induction false} HasElement(s: set<int>)
    ensures s == {} || exists y :: y in s
  {
    if forall y :: y !in s {
      assert s == {};
    }
  }

  lemma {:induction false} MaxExists(s: set<int>)
    ensures exists m :: IsMaxOr0(s, m)
  {
    if s == {} {
      assert IsMaxOr0(s, 0);
    } else {
      HasElement(s);
      var y :| y in s;
      var rest := s - {y};
      assert forall x :: x in s ==> x == y || x in rest;
      MaxExists(rest);
      var m :| IsMaxOr0(rest, m);
      assert IsMaxOr0(s, if rest == {} || y > m then y else m);
    }
  }

  /** SELECT COALESCE(MAX(...), 0) */
  ghost function MaxOr0(s: set<int>): (m: int)
    ensures IsMaxOr0(s, m)
  {
    MaxExists(s);
    var m :| IsMaxOr0(s, m);
    m
  }

  function EntitiesOf(c: Current): set<int> {
    set f | f in c :: f.e
  }

  /** loadState: the counters restart above the transactions, the current entities
      and the attributes; ids that only the log still mentions are not considered. */
  ghost function Reload(s: DbState): DbState {
    var e, a := MaxOr0(EntitiesOf(s.tables.current)) + 1, MaxOr0(s.schema.byID.Keys);
    s.(nextTx := MaxOr0(s.tables.transactions.Keys) + 1, nextEID := if a >= e then a + 1 else e)
  }

  /** What holds of the database between transactions. */
  ghost predicate StateValid(s: DbState) {
    && TablesValid(s.schema, s.tables)
    && s.nextEID >= 1 && s.nextTx >= 1
    && (forall k :: k in s.schema.byID ==> 1 <= k < s.nextEID)
    && (forall t :: t in s.tables.transactions ==> 1 <= t < s.nextTx)
  }

  /** An attribute as DefineAttribute receives it, with the id still to be chosen. */
  predicate SameDefinition(x: Attribute, y: Attribute) {
    x == y.(id := x.id)
  }

  /** DefineAttribute: a repeated definition changes nothing, a different one is
      refused, and only a new ident takes an id and extends the schema. */
  function Define(s: DbState, attr: Attribute): (DbState, Result<(), SchemaError>) {
    if attr.ident in s.schema.byIdent then
      (s, if SameDefinition(s.schema.byIdent[attr.ident], attr) then Ok(()) else Err(DifferentDefinition))
    else
      (s.(schema := s.schema.Put(attr.(id := s.nextEID)), nextEID := s.nextEID + 1), Ok(()))
  }

  lemma {:induction false} DefineKeeps(s: DbState, attr: Attribute)
    requires StateValid(s)
    ensures var s' := Define(s, attr).0;
            StateValid(s') && s'.tables == s.tables && s'.schema.Extends(s.schema)
  {
    var s' := Define(s, attr).0;
    if attr.ident !in s.schema.byIdent {
      assert s.nextEID !in s.schema.byID;
      assert s'.schema.Extends(s.schema);
      ExtendKeeps(s.schema, s'.schema, s.tables);
    }
  }

  /** Attributes never change once made, so a longer schema keeps every invariant. */
  lemma {:induction false} ExtendKeeps(s: Schema, s': Schema, t: Tables)
    requires TablesValid(s, t) && s'.Valid() && s'.Extends(s)
    ensures TablesValid(s', t)
  {
    hide Agrees, DistinctRows;
  }

  lemma {:induction false} FirstPassCounts(s: Schema, c: Current, u: Upsert, batch: seq<TxDatom>)
    ensures var r := UpsertAll(s, c, u, batch);
            u.nextEID <= r.s.nextEID && (r.Stop? ==> r.err == EncodeFailed || r.err == TempIDConflict)
    decreases |batch|
  {
    if batch != [] && UpsertDatom(s, c, u, batch[0]).Next? {
      FirstPassCounts(s, c, UpsertDatom(s, c, u, batch[0]).s, batch[1..]);
    }
  }

  /** How a transaction ends in the gap: its last retraction fails after deleting. */
  ghost predicate GapIn(tx: int, t: Tables, r: Result<TxResult, TxError>) {
    r.Err? && r.error.DuplicateRetraction? && ReassertedIn(t.datoms, tx, r.error.f)
  }

  lemma {:induction false} StartsWorking(s: DbState, tx: int, batch: seq<TxDatom>, txTime: int, validFrom: int)
    requires StateValid(s)
    ensures var r := FirstPass(s, batch);
            r.Next? && tx !in s.tables.transactions
            ==> Working(ContextOf(s, r.s, tx, validFrom), Begun(s, r.s, tx, txTime))
  {
    hide Agrees, DistinctRows, CardOneHolds, IdentityHolds, FirstPass;
  }

  /** A transaction, successful or not, keeps every invariant, appends only rows of its
      own, and leaves current_datoms a view of the log exactly when it did not end in
      the gap. */
  lemma {:induction false} CommitKeeps(s: DbState, tx: int, batch: seq<TxDatom>, txTime: int, validFrom: int)
    requires StateValid(s) && 1 <= tx < s.nextTx
    ensures var (s', r) := Commit(s, tx, batch, txTime, validFrom);
            && StateValid(s') && s'.schema == s.schema && s'.nextTx == s.nextTx
            && s.tables.datoms <= s'.tables.datoms
            && (forall i :: |s.tables.datoms| <= i < |s'.tables.datoms|
                  ==> s'.tables.datoms[i].tx == tx && s'.tables.datoms[i].validFrom == validFrom)
            && (tx in s.tables.transactions ==> s'.tables == s.tables)
            && (IsView(s.tables) ==> (IsView(s'.tables) <==> !GapIn(tx, s'.tables, r)))
            && (r.Ok? ==> r.value.datoms == Reported(s'.tables.datoms[|s.tables.datoms|..]))
  {
    hide TablesValid, OwnRows, UpsertAll, RunAll, Replay, Reported, ReassertedIn;
    FirstPassCounts(s.schema, s.tables.current, Upsert(map[], map[], s.nextEID), batch);
    var up := FirstPass(s, batch);
    if up.Next? && tx !in s.tables.transactions {
      var c, b := ContextOf(s, up.s, tx, validFrom), Begun(s, up.s, tx, txTime);
      StartsWorking(s, tx, batch, txTime, validFrom);
      RunKeeps(c, b, batch);
    }
  }

  lemma {:induction false} ReloadKeeps(s: DbState)
    requires StateValid(s)
    ensures StateValid(Reload(s))
    ensures forall f :: f in s.tables.current ==> f.e < Reload(s).nextEID
  {
    hide TablesValid;
    forall f | f in s.tables.current ensures f.e < Reload(s).nextEID {
      assert f.e in EntitiesOf(s.tables.current);
    }
  }

  /** A transaction leaves its row in `transactions` unless it stopped before writing. */
  lemma {:induction false} CommitRecords(s: DbState, tx: int, batch: seq<TxDatom>, txTime: int, validFrom: int)
    requires StateValid(s) && tx !in s.tables.transactions
    ensures var (s', r) := Commit(s, tx, batch, txTime, validFrom);
            && (FirstPass(s, batch).Stop? ==> s'.tables == s.tables && r.Err?)
            && (FirstPass(s, batch).Next? ==> s'.tables.transactions == s.tables.transactions[tx := txTime])
  {
    hide TablesValid, OwnRows, UpsertAll, RunAll, Replay, Reported, ReassertedIn;
    var up := FirstPass(s, batch);
    if up.Next? {
      StartsWorking(s, tx, batch, txTime, validFrom);
      RunKeeps(ContextOf(s, up.s, tx, validFrom), Begun(s, up.s, tx, txTime), batch);
    }
  }

  /** A successful transaction tells the caller its id and time, and records them. */
  lemma {:induction false} CommitReports(s: DbState, tx: int, batch: seq<TxDatom>, txTime: int, validFrom: int)
    requires StateValid(s) && tx !in s.tables.transactions
    ensures var (s', r) := Commit(s, tx, batch, txTime, validFrom);
            r.Ok? ==> r.value.txID == tx && r.value.txTime == txTime
                      && s'.tables.transactions == s.tables.transactions[tx := txTime]
  {
    CommitRecords(s, tx, batch, txTime, validFrom);
    hide StateValid, FirstPass, RunAll;
  }

  /** And every row it logged, in order, with its entity, attribute, decoded value,
      transaction and direction. */
  lemma {:induction false} CommitReportsRows(s: DbState, tx: int, batch: seq<TxDatom>, txTime: int, validFrom: int)
    requires StateValid(s) && 1 <= tx < s.nextTx
    ensures var (s', r) := Commit(s, tx, batch, txTime, validFrom);
            var n, log := |s.tables.datoms|, s'.tables.datoms;
            r.Ok? ==> n + |r.value.datoms| == |log| && forall i :: 0 <= i < |r.value.datoms| ==>
                        var row, d := log[n + i], r.value.datoms[i];
                        && d.e == row.fact.e && d.a == row.fact.a && d.tx == row.tx && d.added == row.added
                        && DecodeValue(row.fact.v, row.vtype) == Ok(d.v)
  {
    CommitKeeps(s, tx, batch, txTime, validFrom);
    var (s', r) := Commit(s, tx, batch, txTime, validFrom);
    var n, log := |s.tables.datoms|, s'.tables.datoms;
    hide Commit, DecodeValue, IsView, GapIn;
    if r.Ok? {
      forall i | 0 <= i < |r.value.datoms|
        ensures r.value.datoms[i] == DatomOf(log[n + i]) && DecodeValue(log[n + i].fact.v, log[n + i].vtype).Ok?
      {
        LoggedDecodes(s'.tables, s'.schema, log[n + i]);
      }
    }
  }

  /** Every row of the log holds the bytes of some value of its type. */
  lemma {:induction false} LoggedDecodes(t: Tables, s: Schema, r: Row)
    requires s.Valid() && TablesValid(s, t) && r in t.datoms
    ensures DecodeValue(r.fact.v, r.vtype).Ok?
  {
    hide DistinctRows, CardOneHolds, IdentityHolds, Schema.Valid, DecodeInt, DecodeFloat;
  }

  /** In a state whose current_datoms is the view of its log, a current fact has the type,
      columns, transaction and valid_from of the last row about it. */
  lemma {:induction false} CurrentIsLastRow(log: seq<Row>, f: Fact)
    requires f in Replay(log)
    ensures exists i :: 0 <= i < |log| && log[i].fact == f && log[i].added
              && (forall j :: i < j < |log| ==> log[j].fact != f)
                        && Replay(log)[f].vtype == log[i].vtype && Replay(log)[f].cells == log[i].cells
                        && Replay(log)[f].tx == log[i].tx && Replay(log)[f].validFrom == log[i].validFrom
  {
    var n := |log| - 1;
    if log[n].fact == f {
      assert log[n].added;
    } else {
      CurrentIsLastRow(log[..n], f);
      var i :| 0 <= i < n && log[..n][i].fact == f && log[..n][i].added
               && (forall j :: i < j < n ==> log[..n][j].fact != f)
               && Replay(log[..n])[f].vtype == log[..n][i].vtype && Replay(log[..n])[f].cells == log[..n][i].cells
               && Replay(log[..n])[f].tx == log[..n][i].tx && Replay(log[..n])[f].validFrom == log[..n][i].validFrom;
      assert log[..n][i] == log[i];
      forall j | i < j < |log| ensures log[j].fact != f {
        assert j < n ==> log[..n][j] == log[j];
      }
    }
  }
}
