/** What transactions do, said of single datoms, entities and values: the engine's results
    without its own vocabulary. */
module Concrete {
  import opened Prelude
  import opened Values
  import opened Store
  import opened Transact
  import opened Invariants
  import opened TempIDs
  import Failures

  // ---------------------------------------------------------------------
  // A transaction of one datom
  // ---------------------------------------------------------------------

  /** The row has exactly these columns. */
  predicate RowIs(r: Row, e: int, a: int, v: Bytes, t: ValueType, tx: int, added: bool, validFrom: int) {
    && r.fact.e == e && r.fact.a == a && r.fact.v == v && r.vtype == t
    && r.tx == tx && r.added == added && r.validFrom == validFrom
  }

  lemma {:induction false} OneDatom(s: DbState, tx: int, td: TxDatom, txTime: int, validFrom: int)
    requires td.e.EId? && tx !in s.tables.transactions
    ensures var u := Upsert(map[], map[], s.nextEID);
            var c, b := Context(s.schema, tx, validFrom, false), Begun(s, u, tx, txTime);
            var (s', r) := Commit(s, tx, [td], txTime, validFrom);
            match StepDatom(c, b, td)
            case Next(b1) =>
              s' == s.(tables := b1.tables, nextEID := b1.nextEID)
                && r == Ok(TxResult(tx, txTime, b1.tempids, b1.produced))
            case Stop(b1, err) => s' == s.(tables := b1.tables, nextEID := b1.nextEID) && r == Err(err)
  {
    var u := Upsert(map[], map[], s.nextEID);
    assert [td][1..] == [];
    hide StepDatom;
    assert UpsertAll(s.schema, s.tables.current, u, []) == Next(u);
    assert FirstPass(s, [td]) == Next(u);
    var c, b := Context(s.schema, tx, validFrom, false), Begun(s, u, tx, txTime);
    assert RunAll(c, b, [td]) == StepDatom(c, b, td);
  }

  /** The value that a CardOne assertion finds in its place. */
  ghost predicate Replaces(c: Current, attr: Attribute, f: Fact, w: Bytes) {
    attr.cardinality == CardOne && Fact(f.e, attr.id, w) in c
  }

  lemma {:induction false} AssertsOver(c: Context, b: Batch, attr: Attribute, f: Fact, v: Value, w: Bytes)
    requires CardOneHolds(c.schema, b.tables.current) && f.a == attr.id && Replaces(b.tables.current, attr, f, w)
    requires attr.id in c.schema.byID && c.schema.byID[attr.id] == attr
    requires forall x :: x in b.tables.datoms ==> x.tx != c.tx
    requires !(attr.identity && LookupEntity(b.tables.current, attr.id, f.v, f.e).Some?)
    ensures var g := Fact(f.e, attr.id, w); var x := RowFor(c, attr, g, DecodeOrNil(w, attr.valueType), false);
            var row := RowFor(c, attr, f, v, true); var r := Assert(c, b, attr, f, v);
            && r.Next? && r.s.tempids == b.tempids && r.s.nextEID == b.nextEID
            && r.s.tables.datoms == b.tables.datoms + [x] + [row]
            && r.s.tables.current == DeleteEA(b.tables.current, f.e, attr.id)[f := CellOf(row)]
            && r.s.produced != [] && r.s.produced[|r.s.produced| - 1] == Datom(f.e, f.a, v, c.tx, true)
  {
    var old_ := b.tables.current;
    assert ValueIs(old_, f.e, attr.id, w);
    var u :| ValueIs(old_, f.e, attr.id, u)
             && Replace(c, b, attr, f.e) == ReplaceValue(c, b, attr, Fact(f.e, attr.id, u));
    var g1, g2 := Fact(f.e, attr.id, u), Fact(f.e, attr.id, w);
    assert g2 in old_ && attr.cardinality == CardOne;
    assert ValueIs(old_, f.e, attr.id, u);
    assert g1 in old_;
    assert g1 == g2;
    var x := RowFor(c, attr, Fact(f.e, attr.id, w), DecodeOrNil(w, attr.valueType), false);
    hide LookupEntity, DecodeOrNil, BindTypedColumns, DeleteEA, CardOneHolds, Replace;
    Failures.FreshRowIsNew(c, b.tables.datoms, RowFor(c, attr, f, v, true));
    Failures.FreshRowIsNew(c, b.tables.datoms, x);
    Failures.RetractionIsNoAssertion(c, b.tables.datoms, x, RowFor(c, attr, f, v, true));
  }

  lemma {:induction false} AssertsAfresh(c: Context, b: Batch, attr: Attribute, f: Fact, v: Value)
    requires f.a == attr.id && forall w :: !Replaces(b.tables.current, attr, f, w)
    requires forall x :: x in b.tables.datoms ==> x.tx != c.tx
    requires !(attr.identity && LookupEntity(b.tables.current, attr.id, f.v, f.e).Some?)
    ensures var row := RowFor(c, attr, f, v, true); var r := Assert(c, b, attr, f, v);
            && r.Next? && r.s.tempids == b.tempids && r.s.nextEID == b.nextEID
            && r.s.tables.datoms == b.tables.datoms + [row]
            && r.s.tables.current == b.tables.current[f := CellOf(row)]
            && r.s.produced != [] && r.s.produced[|r.s.produced| - 1] == Datom(f.e, f.a, v, c.tx, true)
  {
    hide LookupEntity, DecodeOrNil, BindTypedColumns, ReplaceValue;
    Failures.FreshRowIsNew(c, b.tables.datoms, RowFor(c, attr, f, v, true));
    forall w ensures attr.cardinality == CardOne ==> !ValueIs(b.tables.current, f.e, attr.id, w) {
      assert !Replaces(b.tables.current, attr, f, w);
    }
  }

  /** The value may be asserted: it fits, and no other entity holds it if it identifies. */
  ghost predicate MayAssert(s: DbState, tx: int, e: int, a: Bytes, v: Value) {
    && StateValid(s) && tx !in s.tables.transactions
    && a in s.schema.byIdent && EncodeValue(v, s.schema.byIdent[a].valueType).Ok?
    && var attr := s.schema.byIdent[a]; var b := EncodeValue(v, attr.valueType).value;
    attr.identity ==> forall h :: Fact(h, attr.id, b) in s.tables.current ==> h == e
  }

  lemma {:induction false} AssertionSteps(s: DbState, tx: int, e: int, a: Bytes, v: Value, txTime: int, validFrom: int)
    requires MayAssert(s, tx, e, a, v)
    ensures var attr := s.schema.byIdent[a]; var f := Fact(e, attr.id, EncodeValue(v, attr.valueType).value);
            var c := Context(s.schema, tx, validFrom, false);
            var start := Begun(s, Upsert(map[], map[], s.nextEID), tx, txTime);
            var (s', r) := Commit(s, tx, [TxDatom(EId(e), a, v, false)], txTime, validFrom); var out :=
              Assert(c, start, attr, f, v);
            && CardOneHolds(s.schema, s.tables.current) && attr.id in s.schema.byID && s.schema.byID[attr.id] == attr
            && (forall x :: x in s.tables.datoms ==> x.tx != tx)
            && !(attr.identity && LookupEntity(s.tables.current, attr.id, f.v, e).Some?)
            && (out.Next? ==> s' == s.(tables := out.s.tables, nextEID := out.s.nextEID)
                              && r == Ok(TxResult(tx, txTime, out.s.tempids, out.s.produced)))
  {
    var attr := s.schema.byIdent[a];
    var f := Fact(e, attr.id, EncodeValue(v, attr.valueType).value);
    var c := Context(s.schema, tx, validFrom, false);
    var start := Begun(s, Upsert(map[], map[], s.nextEID), tx, txTime);
    OneDatom(s, tx, TxDatom(EId(e), a, v, false), txTime, validFrom);
    hide CardOneHolds, EncodeValue, Commit, Assert;
    assert StepDatom(c, start, TxDatom(EId(e), a, v, false)) == Assert(c, start, attr, f, v);
  }

  /** Asserting e, a, v succeeds; then the fact is current, and so is, unchanged, everything
      that was, but for the other value of a CardOne attribute. */
  lemma {:induction false} OneAssertion(s: DbState, tx: int, e: int, a: Bytes, v: Value, txTime: int, validFrom: int)
    requires MayAssert(s, tx, e, a, v)
    ensures var attr := s.schema.byIdent[a]; var f := Fact(e, attr.id, EncodeValue(v, attr.valueType).value);
            var (s', r) := Commit(s, tx, [TxDatom(EId(e), a, v, false)], txTime, validFrom);
            && r.Ok? && r.value.tempids == map[] && s'.nextEID == s.nextEID
            && r.value.datoms != [] && r.value.datoms[|r.value.datoms| - 1] == Datom(e, attr.id, v, tx, true)
            && f in s'.tables.current
            && (forall g :: g in s'.tables.current && g != f <==>
                              && g in s.tables.current && g != f
                              && (attr.cardinality == CardOne ==> g.e != e || g.a != attr.id))
            && (forall g :: g in s'.tables.current && g != f ==> s'.tables.current[g] == s.tables.current[g])
            && s'.tables.current[f].tx == tx && s'.tables.current[f].validFrom == validFrom
  {
    var attr := s.schema.byIdent[a];
    var f := Fact(e, attr.id, EncodeValue(v, attr.valueType).value);
    var c := Context(s.schema, tx, validFrom, false);
    var start := Begun(s, Upsert(map[], map[], s.nextEID), tx, txTime);
    hide MayAssert, CardOneHolds, BindTypedColumns, EncodeValue, DecodeOrNil, Commit, Assert, LookupEntity;
    AssertionSteps(s, tx, e, a, v, txTime, validFrom);
    if w :| Replaces(s.tables.current, attr, f, w) {
      AssertsOver(c, start, attr, f, v, w);
    } else {
      AssertsAfresh(c, start, attr, f, v);
      assert forall g :: g in s.tables.current && g.e == e && g.a == attr.id && attr.cardinality == CardOne ==>
                           Replaces(s.tables.current, attr, f, g.v);
    }
  }

  /** And the log has the assertion last, after the retraction of the value it replaces. */
  lemma {:induction false} OneAssertionLogged(s: DbState, tx: int, e: int, a: Bytes, v: Value, txTime: int,
                                              validFrom: int)
    requires MayAssert(s, tx, e, a, v)
    ensures var attr := s.schema.byIdent[a]; var b := EncodeValue(v, attr.valueType).value;
            var s' := Commit(s, tx, [TxDatom(EId(e), a, v, false)], txTime, validFrom).0;
            var n, log := |s.tables.datoms|, s'.tables.datoms;
            && n < |log| <= n + 2 && log[..n] == s.tables.datoms
            && RowIs(log[|log| - 1], e, attr.id, b, attr.valueType, tx, true, validFrom)
            && (|log| == n + 2 <==> attr.cardinality == CardOne && exists w :: Fact(e, attr.id, w) in s.tables.current)
            && (|log| == n + 2 ==> log[n].fact in s.tables.current
                                   && RowIs(log[n], e, attr.id, log[n].fact.v, attr.valueType, tx, false, validFrom))
  {
    var attr := s.schema.byIdent[a];
    var f := Fact(e, attr.id, EncodeValue(v, attr.valueType).value);
    var c := Context(s.schema, tx, validFrom, false);
    var start := Begun(s, Upsert(map[], map[], s.nextEID), tx, txTime);
    hide MayAssert, CardOneHolds, BindTypedColumns, EncodeValue, DecodeOrNil, Commit, Assert, LookupEntity, DeleteEA;
    AssertionSteps(s, tx, e, a, v, txTime, validFrom);
    if w :| Replaces(s.tables.current, attr, f, w) {
      AssertsOver(c, start, attr, f, v, w);
    } else {
      AssertsAfresh(c, start, attr, f, v);
      forall w ensures attr.cardinality == CardOne ==> Fact(e, attr.id, w) !in s.tables.current {
        assert !Replaces(s.tables.current, attr, f, w);
      }
    }
  }

  /** Retracting e, a, v: it always succeeds, and takes away this fact and no other. */
  lemma {:induction false} OneRetraction(s: DbState, tx: int, e: int, a: Bytes, v: Value, txTime: int, validFrom: int)
    requires StateValid(s) && tx !in s.tables.transactions
    requires a in s.schema.byIdent && EncodeValue(v, s.schema.byIdent[a].valueType).Ok?
    ensures var attr := s.schema.byIdent[a]; var b := EncodeValue(v, attr.valueType).value;
            var (s', r) := Commit(s, tx, [TxDatom(EId(e), a, v, true)], txTime, validFrom);
            var n, log := |s.tables.datoms|, s'.tables.datoms;
            && r.Ok? && r.value.datoms == [Datom(e, attr.id, v, tx, false)]
            && (forall f :: f in s'.tables.current <==> f in s.tables.current && f != Fact(e, attr.id, b))
            && (forall f :: f in s'.tables.current ==> s'.tables.current[f] == s.tables.current[f])
            && |log| == n + 1 && log[..n] == s.tables.datoms
            && RowIs(log[n], e, attr.id, b, attr.valueType, tx, false, validFrom)
  {
    var attr := s.schema.byIdent[a];
    var b := EncodeValue(v, attr.valueType).value;
    var c := Context(s.schema, tx, validFrom, false);
    var start := Begun(s, Upsert(map[], map[], s.nextEID), tx, txTime);
    OneDatom(s, tx, TxDatom(EId(e), a, v, true), txTime, validFrom);
    assert forall x :: x in s.tables.datoms ==> x.tx != tx;
    Failures.FreshRowIsNew(c, s.tables.datoms, RowFor(c, attr, Fact(e, attr.id, b), v, false));
    hide StateValid, BindTypedColumns;
  }

  // ---------------------------------------------------------------------
  // TempIDs
  // ---------------------------------------------------------------------

  lemma {:induction false} AcceptedBatch(st: DbState, tx: int, batch: seq<TxDatom>, txTime: int, validFrom: int)
    requires StateValid(st) && BelowCounter(st.tables.current, st.nextEID)
    requires Commit(st, tx, batch, txTime, validFrom).1.Ok?
    ensures AllAgreeable(st.schema, st.tables.current, batch)
  {
    FirstPassAcceptsExactly(st.schema, st.tables.current, st.nextEID, batch);
    hide StateValid, RunAll;
  }

  /** After a successful transaction, a TempID asserted with an Identity value that an
      entity held (entity 0 apart) is that entity. */
  lemma {:induction false} HeldIdentity(st: DbState, tx: int, batch: seq<TxDatom>, txTime: int, validFrom: int,
                                        t: Bytes, a: Bytes, v: Value, e: int)
    requires StateValid(st) && BelowCounter(st.tables.current, st.nextEID)
    requires Commit(st, tx, batch, txTime, validFrom).1.Ok?
    requires TxDatom(ETemp(t), a, v, false) in batch && a in st.schema.byIdent && st.schema.byIdent[a].identity
             && e != 0
    requires var attr := st.schema.byIdent[a];
      EncodeValue(v, attr.valueType).Ok? && Fact(e, attr.id, EncodeValue(v, attr.valueType).value) in st.tables.current
    ensures var ids := Commit(st, tx, batch, txTime, validFrom).1.value.tempids; t in ids && ids[t] == e
  {
    var s, c := st.schema, st.tables.current;
    var k := Key(s.byIdent[a].id, EncodeValue(v, s.byIdent[a].valueType).value);
    TempIDsShareExactlyWhenLinked(st, tx, batch, txTime, validFrom);
    AcceptedBatch(st, tx, batch, txTime, validFrom);
    assert s.Valid() && IdentityHolds(s, c) && k.a in s.byID && s.byID[k.a].identity && e < st.nextEID;
    hide StateValid, Commit, IdentityHolds, Schema.Valid, EncodeValue, Linked, BelowCounter;
    AssertsAreKeys(s, c, batch, t, a, v);
    HeldIs(s, c, k, e);
    TwoSteps(s, c, batch, TempNode(t), KeyNode(k), HolderNode(e));
  }

  /** Two TempIDs asserted with one Identity value are one entity. */
  lemma {:induction false} SharedIdentity(st: DbState, tx: int, batch: seq<TxDatom>, txTime: int, validFrom: int,
                                          t: Bytes, t': Bytes, a: Bytes, v: Value)
    requires StateValid(st) && BelowCounter(st.tables.current, st.nextEID)
    requires Commit(st, tx, batch, txTime, validFrom).1.Ok?
    requires TxDatom(ETemp(t), a, v, false) in batch && TxDatom(ETemp(t'), a, v, false) in batch
    requires a in st.schema.byIdent && st.schema.byIdent[a].identity
    ensures var ids := Commit(st, tx, batch, txTime, validFrom).1.value.tempids;
            t in ids && t' in ids && ids[t] == ids[t']
  {
    var s, c := st.schema, st.tables.current;
    TempIDsShareExactlyWhenLinked(st, tx, batch, txTime, validFrom);
    AcceptedBatch(st, tx, batch, txTime, validFrom);
    hide StateValid, Commit, EncodeValue, Linked, BelowCounter;
    AssertsAreKeys(s, c, batch, t, a, v);
    AssertsAreKeys(s, c, batch, t', a, v);
    var k := Key(s.byIdent[a].id, EncodeValue(v, s.byIdent[a].valueType).value);
    TwoSteps(s, c, batch, TempNode(t), KeyNode(k), TempNode(t'));
  }

  /** A TempID that no datom asserts with an Identity value, whatever is retracted of it, is
      a new entity that no other TempID shares. */
  lemma {:induction false} NewEntity(st: DbState, tx: int, batch: seq<TxDatom>, txTime: int, validFrom: int, t: Bytes)
    requires StateValid(st) && BelowCounter(st.tables.current, st.nextEID)
    requires Commit(st, tx, batch, txTime, validFrom).1.Ok?
    requires exists td :: td in batch && td.e == ETemp(t)
    requires forall td :: td in batch && td.e == ETemp(t) && !td.retract ==>
                            td.a in st.schema.byIdent && !st.schema.byIdent[td.a].identity
    ensures var ids := Commit(st, tx, batch, txTime, validFrom).1.value.tempids;
            t in ids && ids[t] >= st.nextEID && forall t' :: t' in ids && t' != t ==> ids[t'] != ids[t]
  {
    var s, c := st.schema, st.tables.current;
    var ids := Commit(st, tx, batch, txTime, validFrom).1.value.tempids;
    TempIDsShareExactlyWhenLinked(st, tx, batch, txTime, validFrom);
    NotNamed(s, batch, t);
    hide StateValid, Commit, Linked, BelowCounter, Named;
    forall t' | t' in ids && t' != t ensures ids[t'] != ids[t] {
      UnnamedUnlinked(s, c, batch, t, TempNode(t'));
    }
    UnnamedUnlinked(s, c, batch, t, HolderNode(ids[t]));
  }

  lemma {:induction false} NotNamed(s: Schema, batch: seq<TxDatom>, t: Bytes)
    requires forall td :: td in batch && td.e == ETemp(t) && !td.retract
               ==> td.a in s.byIdent && !s.byIdent[td.a].identity
    ensures !Named(s, batch, t)
  {
  }

  lemma {:induction false} AssertsAreKeys(s: Schema, c: Current, batch: seq<TxDatom>, t: Bytes, a: Bytes, v: Value)
    requires AllAgreeable(s, c, batch) && TxDatom(ETemp(t), a, v, false) in batch && a in s.byIdent
             && s.byIdent[a].identity
    ensures EncodeValue(v, s.byIdent[a].valueType).Ok?
    ensures AssertsKey(s, batch, t, Key(s.byIdent[a].id, EncodeValue(v, s.byIdent[a].valueType).value))
  {
    var td := TxDatom(ETemp(t), a, v, false);
    var i :| 0 <= i < |batch| && batch[i] == td;
    assert Agreeable(s, c, batch[..i], batch[i]);
    hide EncodeValue, AllAgreeable;
    assert Upserts(s, td) && KeyOf(s, td).Some?;
  }

  lemma {:induction false} HeldIs(s: Schema, c: Current, k: Key, e: int)
    requires s.Valid() && IdentityHolds(s, c) && Fact(e, k.a, k.v) in c && e != 0
    requires k.a in s.byID && s.byID[k.a].identity
    ensures HeldBy(c, k, e)
  {
    assert Holds(c, k.a, k.v, 0, e);
    var h := LookupEntity(c, k.a, k.v, 0).value;
    assert Fact(h, k.a, k.v) in c;
  }

  lemma {:induction false} TwoSteps(s: Schema, c: Current, batch: seq<TxDatom>, l: Node, m: Node, n: Node)
    requires Edge(s, c, batch, l, m) && Edge(s, c, batch, m, n)
    ensures Linked(s, c, batch, l, n)
  {
    assert Reach(s, c, batch, 0, l, l);
    hide Edge;
    LinkedStep(s, c, batch, l, l, m);
    LinkedStep(s, c, batch, l, m, n);
  }
}
