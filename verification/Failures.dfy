/** What failing batches leave behind. Transact promises atomicity (transact.go:11), but
    withWriteConn (pool.go:141-147) returns the batch's error without storing it where
    the deferred end of the SQLite transaction looks, so the transaction is committed. */
module Failures {
  import opened Prelude
  import opened Values
  import opened Store
  import opened Transact
  import opened Invariants
  import opened TempIDs

  lemma {:induction false} FreshRowIsNew(c: Context, log: seq<Row>, r: Row)
    requires r.tx == c.tx && forall x :: x in log ==> x.tx != c.tx
    ensures !Duplicates(log, r)
  {
  }

  /** The first datom of a transaction cannot collide with a row of its own. */
  lemma {:induction false} FirstAssertStops(c: Context, b: Batch, attr: Attribute, f: Fact, v: Value)
    requires forall x :: x in b.tables.datoms ==> x.tx != c.tx
    ensures var r := Assert(c, b, attr, f, v);
            && (r.Stop? <==> attr.identity && LookupEntity(b.tables.current, attr.id, f.v, f.e).Some?)
            && if r.Stop? then r.s.tables == b.tables else |b.tables.datoms| < |r.s.tables.datoms|
  {
    hide LookupEntity, DecodeOrNil, DeleteEA, BindTypedColumns;
    FreshRowIsNew(c, b.tables.datoms, RowFor(c, attr, f, v, true));
    if attr.cardinality == CardOne && exists w :: ValueIs(b.tables.current, f.e, attr.id, w) {
      var w :| ValueIs(b.tables.current, f.e, attr.id, w)
        && Replace(c, b, attr, f.e) == ReplaceValue(c, b, attr, Fact(f.e, attr.id, w));
      var g := Fact(f.e, attr.id, w);
      var x := RowFor(c, attr, g, DecodeOrNil(w, attr.valueType), false);
      FreshRowIsNew(c, b.tables.datoms, x);
      RetractionIsNoAssertion(c, b.tables.datoms, x, RowFor(c, attr, f, v, true));
    }
  }

  lemma {:induction false} RetractionIsNoAssertion(c: Context, log: seq<Row>, x: Row, r: Row)
    requires !Duplicates(log, r) && x.added != r.added
    ensures !Duplicates(log + [x], r)
  {
  }

  lemma {:induction false} FirstDatom(c: Context, b: Batch, td: TxDatom)
    requires b.seen == {} && forall x :: x in b.tables.datoms ==> x.tx != c.tx
    ensures var r := StepDatom(c, b, td);
            if r.Stop? then r.s.tables == b.tables else |b.tables.datoms| < |r.s.tables.datoms|
  {
    hide Assert, ResolveLookupRef, EncodeValue, BindTypedColumns;
    if td.a in c.schema.byIdent {
      var attr := c.schema.byIdent[td.a];
      var e, enc := ResolveEntity(c, b, td.e), EncodeValue(td.v, attr.valueType);
      if e.Ok? && enc.Ok? {
        var f, b1 := Fact(e.value.0, attr.id, enc.value), e.value.1;
        var b2 := if c.dedup then b1.(seen := {DatomKey(f, td.retract)}) else b1;
        assert b1.seen + {DatomKey(f, td.retract)} == {DatomKey(f, td.retract)};
        if td.retract {
          FreshRowIsNew(c, b2.tables.datoms, RowFor(c, attr, f, td.v, false));
        } else {
          FirstAssertStops(c, b2, attr, f, td.v);
        }
      }
    }
  }

  /** Whatever the state, a failing batch leaves the facts as they were exactly when it
      failed in the upsert pass or on its first datom. */
  lemma {:induction false} AtomicByStep(s: DbState, tx: int, batch: seq<TxDatom>, txTime: int, validFrom: int)
    requires StateValid(s) && 1 <= tx < s.nextTx && tx !in s.tables.transactions
    requires Commit(s, tx, batch, txTime, validFrom).1.Err?
    ensures var s' := Commit(s, tx, batch, txTime, validFrom).0; var u := FirstPass(s, batch);
            (s'.tables.datoms == s.tables.datoms && s'.tables.current == s.tables.current)
            <==> u.Stop? || StepDatom(ContextOf(s, u.s, tx, validFrom), Begun(s, u.s, tx, txTime), batch[0]).Stop?
  {
    var u := FirstPass(s, batch);
    if u.Next? {
      var c, b := ContextOf(s, u.s, tx, validFrom), Begun(s, u.s, tx, txTime);
      FirstDatom(c, b, batch[0]);
      StartsWorking(s, tx, batch, txTime, validFrom);
      StepKeeps(c, b, batch[0]);
      hide TablesValid, StepDatom, FirstPass, ViewKept, OwnRows, Reported;
      var r := StepDatom(c, b, batch[0]);
      if r.Next? {
        RunKeeps(c, r.s, batch[1..]);
      }
    }
  }

  // ---------------------------------------------------------------------
  // What refuses the first datom
  // ---------------------------------------------------------------------

  /** A lookup ref whose attribute is unknown or no Identity, or whose value does not fit
      the attribute or has no holder. */
  ghost predicate LookupFails(s: Schema, c: Current, ident: Bytes, v: Value) {
    || ident !in s.byIdent
    || !s.byIdent[ident].identity
    || EncodeValue(v, s.byIdent[ident].valueType).Err?
    || !exists e :: Holds(c, s.byIdent[ident].id, EncodeValue(v, s.byIdent[ident].valueType).value, 0, e)
  }

  ghost predicate EntityFails(s: Schema, c: Current, e: Entity) {
    e.EOther? || (e.ELookup? && LookupFails(s, c, e.ident, e.v))
  }

  /** The entity that an id or a lookup ref names. */
  ghost predicate NamesEntity(s: Schema, c: Current, e: Entity, n: int) {
    match e
    case EId(id) => id == n
    case ELookup(ident, v) => !LookupFails(s, c, ident, v)
      && Holds(c, s.byIdent[ident].id, EncodeValue(v, s.byIdent[ident].valueType).value, 0, n)
    case _ => false
  }

  /** An assertion of an Identity value that another entity holds. The upsert pass has given
      a TempID the holder, unless that is entity 0, which its lookup leaves out. */
  ghost predicate HeldElsewhere(s: Schema, c: Current, td: TxDatom)
    requires td.a in s.byIdent && EncodeValue(td.v, s.byIdent[td.a].valueType).Ok?
  {
    var attr := s.byIdent[td.a];
    && !td.retract && attr.identity
    && if td.e.ETemp? then Fact(0, attr.id, EncodeValue(td.v, attr.valueType).value) in c else
       exists n, h :: NamesEntity(s, c, td.e, n) && Holds(c, attr.id, EncodeValue(td.v, attr.valueType).value, n, h)
  }

  ghost predicate RefusedFirst(s: Schema, c: Current, td: TxDatom) {
    || td.a !in s.byIdent
    || EntityFails(s, c, td.e)
    || EncodeValue(td.v, s.byIdent[td.a].valueType).Err?
    || HeldElsewhere(s, c, td)
  }

  lemma {:induction false} OneHolder(s: Schema, c: Current, attr: Attribute, v: Bytes, n: int, h: int)
    requires s.Valid() && IdentityHolds(s, c) && attr.id in s.byID && s.byID[attr.id] == attr && attr.identity
    requires Holds(c, attr.id, v, 0, n) && Holds(c, attr.id, v, 0, h)
    ensures n == h
  {
    assert Fact(n, attr.id, v) in c && Fact(h, attr.id, v) in c;
  }

  lemma {:induction false} LookupMeans(s: Schema, c: Current, ident: Bytes, v: Value)
    requires s.Valid() && IdentityHolds(s, c)
    ensures ResolveLookupRef(s, c, ident, v).Err? <==> LookupFails(s, c, ident, v)
    ensures forall n :: ResolveLookupRef(s, c, ident, v) == Ok(n) <==> NamesEntity(s, c, ELookup(ident, v), n)
  {
    hide EncodeValue, IdentityHolds;
    if !LookupFails(s, c, ident, v) {
      var attr := s.byIdent[ident];
      var b := EncodeValue(v, attr.valueType).value;
      var e := LookupEntity(c, attr.id, b, 0).value;
      forall n | Holds(c, attr.id, b, 0, n) ensures n == e {
        OneHolder(s, c, attr, b, n, e);
      }
    }
  }

  /** After the upsert pass a TempID that asserts a held Identity value is the holder. */
  lemma {:induction false} UpsertedHolds(s: DbState, batch: seq<TxDatom>, td: TxDatom, h: int)
    requires s.schema.Valid() && IdentityHolds(s.schema, s.tables.current) && BelowCounter(s.tables.current, s.nextEID)
    requires FirstPass(s, batch).Next? && td in batch && Upserts(s.schema, td) && KeyOf(s.schema, td).Some?
    requires var k := KeyOf(s.schema, td).value; Holds(s.tables.current, k.a, k.v, 0, h)
    ensures var u := FirstPass(s, batch).s; td.e.name in u.tempids && u.tempids[td.e.name] == h
  {
    var c, k, u := s.tables.current, KeyOf(s.schema, td).value, FirstPass(s, batch).s;
    var e := LookupEntity(c, k.a, k.v, 0).value;
    OneHolder(s.schema, c, s.schema.byIdent[td.a], k.v, e, h);
    FirstPassCoherent(s.schema, c, Upsert(map[], map[], s.nextEID), batch, s.nextEID, _ => 0);
    assert Resolved(s.schema, u, td) && HeldBy(c, k, h);
  }

  lemma {:induction false} NeverZero(s: DbState, batch: seq<TxDatom>, t: Bytes)
    requires BelowCounter(s.tables.current, s.nextEID) && s.nextEID >= 1 && FirstPass(s, batch).Next?
    ensures var u := FirstPass(s, batch).s; t in u.tempids ==> u.tempids[t] != 0
  {
    var u, c := FirstPass(s, batch).s, s.tables.current;
    if t in u.tempids {
      FirstPassShares(s.schema, c, batch, s.nextEID, TempNode(t), HolderNode(0));
      var mark := (x: Node) => if x == HolderNode(0) then 1 else 0;
      UnequalUnlinked(s.schema, c, batch, TempNode(t), HolderNode(0), mark);
    }
  }

  /** The entity of a first assertion of an Identity value is refused by its holder. */
  lemma {:induction false} FirstEntity(s: DbState, batch: seq<TxDatom>, td: TxDatom, n: int, v: Bytes)
    requires StateValid(s) && BelowCounter(s.tables.current, s.nextEID) && FirstPass(s, batch).Next?
    requires td in batch && td.a in s.schema.byIdent && !td.retract && s.schema.byIdent[td.a].identity
    requires EncodeValue(td.v, s.schema.byIdent[td.a].valueType) == Ok(v)
    requires var u := FirstPass(s, batch).s;
             if td.e.ETemp? then td.e.name in u.tempids && n == u.tempids[td.e.name]
               else NamesEntity(s.schema, s.tables.current, td.e, n)
    ensures LookupEntity(s.tables.current, s.schema.byIdent[td.a].id, v, n).Some?
            <==> HeldElsewhere(s.schema, s.tables.current, td)
  {
    var c, attr := s.tables.current, s.schema.byIdent[td.a];
    if td.e.ETemp? {
      NeverZero(s, batch, td.e.name);
      assert KeyOf(s.schema, td) == Some(Key(attr.id, v));
      hide FirstPass, EncodeValue;
      if h :| Holds(c, attr.id, v, n, h) && h != 0 {
        UpsertedHolds(s, batch, td, h);
      }
      if Fact(0, attr.id, v) in c {
        assert Holds(c, attr.id, v, n, 0);
      }
    } else {
      hide FirstPass, EncodeValue;
      if m, h :| NamesEntity(s.schema, c, td.e, m) && Holds(c, attr.id, v, m, h) {
        if td.e.ELookup? {
          LookupMeans(s.schema, c, td.e.ident, td.e.v);
        }
        assert Holds(c, attr.id, v, n, h);
      }
    }
  }

  lemma {:induction false} FirstRefused(s: DbState, tx: int, batch: seq<TxDatom>, txTime: int, validFrom: int)
    requires StateValid(s) && BelowCounter(s.tables.current, s.nextEID) && tx !in s.tables.transactions
    requires batch != [] && FirstPass(s, batch).Next?
    ensures var u := FirstPass(s, batch).s;
            StepDatom(ContextOf(s, u, tx, validFrom), Begun(s, u, tx, txTime), batch[0]).Stop?
            <==> RefusedFirst(s.schema, s.tables.current, batch[0])
  {
    var u, td := FirstPass(s, batch).s, batch[0];
    var c, b := ContextOf(s, u, tx, validFrom), Begun(s, u, tx, txTime);
    assert forall x :: x in b.tables.datoms ==> x.tx != c.tx;
    if td.e.ELookup? {
      LookupMeans(s.schema, s.tables.current, td.e.ident, td.e.v);
    }
    hide FirstPass, TablesValid, EncodeValue, Assert, Retract, LookupFails, ResolveLookupRef, NamesEntity,
      HeldElsewhere;
    if td.a in s.schema.byIdent && ResolveEntity(c, b, td.e).Ok?
      && EncodeValue(td.v, s.schema.byIdent[td.a].valueType).Ok? {
      var attr := s.schema.byIdent[td.a];
      var (e, b1) := ResolveEntity(c, b, td.e).value;
      var v := EncodeValue(td.v, attr.valueType).value;
      FirstAdmitted(c, b1, attr, Fact(e, attr.id, v), td);
      if !td.retract && attr.identity {
        FirstEntityIs(s, batch, td, e, c, b);
        FirstEntity(s, batch, td, e, v);
      }
      NotHeld(s.schema, s.tables.current, td);
    }
  }

  lemma {:induction false} NotHeld(s: Schema, c: Current, td: TxDatom)
    requires td.a in s.byIdent && EncodeValue(td.v, s.byIdent[td.a].valueType).Ok?
    ensures td.retract || !s.byIdent[td.a].identity ==> !HeldElsewhere(s, c, td)
  {
  }

  /** A TempID of the upsert pass, an id or a lookup ref stands for the same entity in both passes. */
  lemma {:induction false} FirstEntityIs(s: DbState, batch: seq<TxDatom>, td: TxDatom, e: int, c: Context, b: Batch)
    requires StateValid(s) && BelowCounter(s.tables.current, s.nextEID) && FirstPass(s, batch).Next? && td in batch
    requires td.a in s.schema.byIdent && !td.retract && s.schema.byIdent[td.a].identity
    requires c.schema == s.schema && b.tables.current == s.tables.current && b.tempids == FirstPass(s, batch).s.tempids
    requires ResolveEntity(c, b, td.e).Ok? && ResolveEntity(c, b, td.e).value.0 == e
    ensures var u := FirstPass(s, batch).s;
            if td.e.ETemp? then td.e.name in u.tempids && e == u.tempids[td.e.name]
              else NamesEntity(s.schema, s.tables.current, td.e, e)
  {
    if td.e.ETemp? {
      FirstPassBounds(s.schema, s.tables.current, batch, s.nextEID);
      assert Named(s.schema, batch, td.e.name);
    } else if td.e.ELookup? {
      LookupMeans(s.schema, s.tables.current, td.e.ident, td.e.v);
    }
  }

  lemma {:induction false} FirstAdmitted(c: Context, b: Batch, attr: Attribute, f: Fact, td: TxDatom)
    requires b.seen == {} && (forall x :: x in b.tables.datoms ==> x.tx != c.tx) && f.a == attr.id
    ensures Admit(c, b, attr, f, td).Stop?
            <==> !td.retract && attr.identity && LookupEntity(b.tables.current, attr.id, f.v, f.e).Some?
  {
    hide Assert, LookupEntity, BindTypedColumns;
    var b2 := if c.dedup then b.(seen := {DatomKey(f, td.retract)}) else b;
    assert b.seen + {DatomKey(f, td.retract)} == {DatomKey(f, td.retract)};
    if td.retract {
      FreshRowIsNew(c, b2.tables.datoms, RowFor(c, attr, f, td.v, false));
    } else {
      FirstAssertStops(c, b2, attr, f, td.v);
    }
  }

  /** A failing batch leaves the facts as they were exactly when the upsert pass does not
      accept it or its first datom is refused, which both can be seen beforehand;
      otherwise a non-empty part of it is committed. */
  lemma {:induction false} AtomicExactly(s: DbState, tx: int, batch: seq<TxDatom>, txTime: int, validFrom: int)
    requires StateValid(s) && 1 <= tx < s.nextTx && tx !in s.tables.transactions
    requires BelowCounter(s.tables.current, s.nextEID)
    requires Commit(s, tx, batch, txTime, validFrom).1.Err?
    ensures var s' := Commit(s, tx, batch, txTime, validFrom).0;
            (s'.tables.datoms == s.tables.datoms && s'.tables.current == s.tables.current)
            <==> !AllAgreeable(s.schema, s.tables.current, batch) || RefusedFirst(s.schema, s.tables.current, batch[0])
  {
    var u := FirstPass(s, batch);
    FirstPassAcceptsExactly(s.schema, s.tables.current, s.nextEID, batch);
    AtomicByStep(s, tx, batch, txTime, validFrom);
    if u.Next? {
      FirstRefused(s, tx, batch, txTime, validFrom);
    }
  }

  // ---------------------------------------------------------------------
  // Concrete inputs
  // ---------------------------------------------------------------------

  // A database whose one attribute, ":n", holds any number of byte strings.
  const IDENT: Bytes := [58, 110]
  const MANY: Attribute := Attribute(1, IDENT, TBytes, CardMany, false, false, false, false)
  const SCHEMA: Schema := Schema(map[IDENT := MANY], map[1 := MANY])

  function OneAttribute(): DbState {
    DbState(Tables([], map[], map[]), SCHEMA, 2, 2)
  }

  const FACT: Fact := Fact(7, 1, [1])

  function Datum(ident: Bytes, retract: bool): TxDatom {
    TxDatom(EId(7), ident, VBytes([1]), retract)
  }

  lemma {:induction false} OneAttributeValid()
    ensures StateValid(OneAttribute()) && IsView(OneAttribute().tables)
  {
    assert SCHEMA.Valid();
  }

  function TheRow(added: bool): Row {
    Row(FACT, TBytes, BindTypedColumns(VBytes([1]), TBytes), 1, added, 0)
  }

  lemma {:induction false} StepOnFact(c: Context, b: Batch, retract: bool)
    requires c == Context(SCHEMA, 1, 0, false)
    ensures StepDatom(c, b, Datum(IDENT, retract)) ==
            if Duplicates(b.tables.datoms, TheRow(!retract)) then
              if retract then Stop(WithCurrent(b, b.tables.current - {FACT}), DuplicateRetraction(FACT))
                else Stop(b, DuplicateAssertion(FACT))
            else if retract then Next(Logged(WithCurrent(b, b.tables.current - {FACT}), TheRow(false), VBytes([1])))
            else Next(WithCurrent(Logged(b, TheRow(true), VBytes([1])), b.tables.current[FACT := CellOf(TheRow(true))]))
  {
    assert EncodeValue(VBytes([1]), TBytes) == Ok([1]);
    assert RowFor(c, MANY, FACT, VBytes([1]), !retract) == TheRow(!retract);
  }

  /** A batch whose second datom names an unknown attribute fails, and its first datom
      is current afterwards. */
  lemma {:induction false} FailingBatchCommitsItsPrefix()
    ensures var (s', r) := Commit(OneAttribute(), 1, [Datum(IDENT, false), Datum([], false)], 0, 0);
            r.Err? && FACT in s'.tables.current
  {
    var s, batch := OneAttribute(), [Datum(IDENT, false), Datum([], false)];
    assert batch[1..] == [Datum([], false)] && batch[1..][1..] == [];
    var u := Upsert(map[], map[], 2);
    assert UpsertAll(SCHEMA, s.tables.current, u, batch[1..][1..]) == Next(u);
    assert UpsertAll(SCHEMA, s.tables.current, u, batch[1..]) == Next(u);
    assert FirstPass(s, batch) == Next(u);
    var c, b := ContextOf(s, u, 1, 0), Begun(s, u, 1, 0);
    StepOnFact(c, b, false);
    assert RunAll(c, b, batch) == RunAll(c, StepDatom(c, b, batch[0]).s, batch[1..]);
  }

  /** Retracting, asserting and retracting one fact in one batch ends in the gap: the
      log says the fact holds, current_datoms does not have it. */
  lemma {:induction false} GapHappens()
    ensures var (s', r) := Commit(OneAttribute(), 1, [Datum(IDENT, true), Datum(IDENT, false), Datum(IDENT, true)], 0,
                                  0);
            r.Err? && FACT in Replay(s'.tables.datoms) && FACT !in s'.tables.current
  {
    var s, batch := OneAttribute(), [Datum(IDENT, true), Datum(IDENT, false), Datum(IDENT, true)];
    assert batch[1..] == [Datum(IDENT, false), Datum(IDENT, true)] && batch[2..] == [Datum(IDENT, true)]
      && batch[3..] == [];
    var u := Upsert(map[], map[], 2);
    assert batch[2..][1..] == batch[3..] && batch[1..][1..] == batch[2..];
    assert UpsertAll(SCHEMA, s.tables.current, u, batch[3..]) == Next(u);
    assert UpsertAll(SCHEMA, s.tables.current, u, batch[2..]) == Next(u);
    assert UpsertAll(SCHEMA, s.tables.current, u, batch[1..]) == Next(u);
    assert FirstPass(s, batch) == Next(u);
    var c, b := ContextOf(s, u, 1, 0), Begun(s, u, 1, 0);
    StepOnFact(c, b, true);
    var b1 := StepDatom(c, b, batch[0]).s;
    StepOnFact(c, b1, false);
    assert b1.tables.datoms == [TheRow(false)];
    var b2 := StepDatom(c, b1, batch[1]).s;
    StepOnFact(c, b2, true);
    assert b2.tables.datoms == [TheRow(false), TheRow(true)];
    hide StepDatom;
    assert SameKey(b2.tables.datoms[0], TheRow(false));
    assert RunAll(c, b2, batch[2..]) == StepDatom(c, b2, batch[2]);
    assert RunAll(c, b1, batch[1..]) == RunAll(c, b2, batch[2..]);
    assert RunAll(c, b, batch) == RunAll(c, b1, batch[1..]);
    assert [TheRow(false), TheRow(true)][..1] == [TheRow(false)];
    ReplaySnoc([TheRow(false)], TheRow(true));
    assert [TheRow(false)] + [TheRow(true)] == b2.tables.datoms;
  }
}
