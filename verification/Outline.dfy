/** What a batch comes to, told from the facts that are current before it. The outline of
    a transaction keeps three sets of facts, those current, those it has retracted and
    those it has asserted, and looks at no row, column or log. It tells beforehand which
    batches succeed, which fail, and which fail in the gap. */
module Outline {
  import opened Prelude
  import opened Values
  import opened Store
  import opened Transact
  import opened Invariants
  import opened TempIDs
  import Failures

  datatype Sketch = Sketch(held: set<Fact>, gone: set<Fact>, made: set<Fact>, tempids: map<Bytes, int>,
                           seen: set<DatomKey>, next: int)

  datatype Outcome = Goes(k: Sketch) | Fails | Gaps(f: Fact)

  // ---------------------------------------------------------------------
  // The outline
  // ---------------------------------------------------------------------

  predicate HolderIn(held: set<Fact>, a: int, v: Bytes, exclude: int, e: int) {
    Fact(e, a, v) in held && e != exclude
  }

  ghost predicate LookupNames(s: Schema, held: set<Fact>, ident: Bytes, v: Value, e: int) {
    && ident in s.byIdent && s.byIdent[ident].identity && EncodeValue(v, s.byIdent[ident].valueType).Ok?
    && HolderIn(held, s.byIdent[ident].id, EncodeValue(v, s.byIdent[ident].valueType).value, 0, e)
  }

  /** The entity a datom is about, and the names known afterwards. */
  ghost function EntityIn(s: Schema, k: Sketch, e: Entity): Option<(int, Sketch)> {
    match e
    case ETemp(t) =>
      if t in k.tempids then Some((k.tempids[t], k))
        else Some((k.next, k.(tempids := k.tempids[t := k.next], next := k.next + 1)))
    case EId(n) => Some((n, k))
    case ELookup(ident, v) =>
      if exists n :: LookupNames(s, k.held, ident, v, n) then
        var n :| LookupNames(s, k.held, ident, v, n);
        Some((n, k))
      else None
    case EOther => None
  }

  /** A retraction fails when its fact was retracted before, and ends in the gap when the
      fact is current all the same. */
  function Retracted(k: Sketch, f: Fact): Outcome {
    if f !in k.gone then Goes(k.(held := k.held - {f}, gone := k.gone + {f}))
    else if f in k.held then Gaps(f)
    else Fails
  }

  /** The facts in the place of f that a CardOne assertion replaces. */
  function Replaced(attr: Attribute, held: set<Fact>, f: Fact): set<Fact> {
    if attr.cardinality == CardOne then set g | g in held && g.e == f.e && g.a == f.a else {}
  }

  ghost predicate HeldByOther(attr: Attribute, held: set<Fact>, f: Fact) {
    attr.identity && exists e :: HolderIn(held, attr.id, f.v, f.e, e)
  }

  /** An assertion fails when another entity holds its Identity value, when what it
      replaces was retracted before, and when its fact was asserted before. */
  ghost function Asserted(attr: Attribute, k: Sketch, f: Fact): Outcome {
    var old_ := Replaced(attr, k.held, f);
    if HeldByOther(attr, k.held, f) || old_ * k.gone != {} || f in k.made then Fails
    else Goes(k.(held := k.held - old_ + {f}, gone := k.gone + old_, made := k.made + {f}))
  }

  ghost function Admitted(dedup: bool, k: Sketch, attr: Attribute, f: Fact, retract: bool): Outcome {
    var key := DatomKey(f, retract);
    if dedup && key in k.seen then Goes(k)
    else
      var k1 := if dedup then k.(seen := k.seen + {key}) else k;
      if retract then Retracted(k1, f) else Asserted(attr, k1, f)
  }

  ghost function OutlineDatom(s: Schema, dedup: bool, k: Sketch, td: TxDatom): Outcome {
    if td.a !in s.byIdent then Fails
    else
      var attr := s.byIdent[td.a];
      match EntityIn(s, k, td.e)
      case None => Fails
      case Some((e, k1)) =>
        match EncodeValue(td.v, attr.valueType)
        case Err(_) => Fails
        case Ok(v) => Admitted(dedup, k1, attr, Fact(e, attr.id, v), td.retract)
  }

  ghost function OutlineAll(s: Schema, dedup: bool, k: Sketch, batch: seq<TxDatom>): Outcome
    decreases |batch|
  {
    if batch == [] then Goes(k)
    else match OutlineDatom(s, dedup, k, batch[0])
      case Goes(k1) => OutlineAll(s, dedup, k1, batch[1..])
      case o => o
  }

  /** The outline of the datoms, with the names that the upsert pass gave out. */
  ghost function OutlineAfter(s: DbState, u: Upsert, batch: seq<TxDatom>): Outcome {
    OutlineAll(s.schema, u.pending != map[], Sketch(s.tables.current.Keys, {}, {}, u.tempids, {}, u.nextEID), batch)
  }

  /** The outline of a whole transaction. */
  ghost function OutlineOf(s: DbState, batch: seq<TxDatom>): Outcome {
    if AllAgreeable(s.schema, s.tables.current, batch) then OutlineAfter(s, FirstPass(s, batch).s, batch) else Fails
  }

  lemma {:induction false} AnyNextTx(s: DbState, batch: seq<TxDatom>, nextTx: int)
    ensures OutlineOf(s.(nextTx := nextTx), batch) == OutlineOf(s, batch)
  {
  }

  // ---------------------------------------------------------------------
  // The transaction follows its outline
  // ---------------------------------------------------------------------

  /** The facts of this transaction's rows of one kind. */
  ghost predicate InLog(c: Context, log: seq<Row>, f: Fact, added: bool) {
    exists i :: 0 <= i < |log| && log[i].tx == c.tx && log[i].fact == f && log[i].added == added
  }

  ghost predicate Sketches(c: Context, b: Batch, k: Sketch) {
    && k.held == b.tables.current.Keys && k.tempids == b.tempids && k.seen == b.seen && k.next == b.nextEID
    && (forall f :: f in k.gone <==> InLog(c, b.tables.datoms, f, false))
    && (forall f :: f in k.made <==> InLog(c, b.tables.datoms, f, true))
  }

  ghost predicate Follows(c: Context, r: Fold<Batch>, o: Outcome) {
    match o
    case Goes(k) => r.Next? && Sketches(c, r.s, k)
    case Fails => r.Stop? && !Gap(c, r.s, r.err)
    case Gaps(f) => r.Stop? && r.err == DuplicateRetraction(f) && Gap(c, r.s, r.err)
  }

  lemma {:induction false} DuplicatesMeans(c: Context, log: seq<Row>, r: Row)
    requires OwnRows(c, log) && r.tx == c.tx && r.validFrom == c.validFrom
    ensures Duplicates(log, r) <==> InLog(c, log, r.fact, r.added)
  {
  }

  lemma {:induction false} InLogSnoc(c: Context, log: seq<Row>, r: Row, f: Fact, added: bool)
    requires r.tx == c.tx
    ensures InLog(c, log + [r], f, added) <==> InLog(c, log, f, added) || (r.fact == f && r.added == added)
  {
    var log' := log + [r];
    if InLog(c, log, f, added) {
      var i :| 0 <= i < |log| && log[i].tx == c.tx && log[i].fact == f && log[i].added == added;
      assert log'[i] == log[i];
    }
    if r.fact == f && r.added == added {
      assert log'[|log|] == r;
    }
  }

  /** A row more in the log and other current facts, and the sketch that goes with it. */
  lemma {:induction false} LoggedSketch(c: Context, b: Batch, k: Sketch, r: Row, v: Value, cur: Current)
    requires Sketches(c, b, k) && r.tx == c.tx
    ensures var k1 := if r.added then k.(made := k.made + {r.fact}) else k.(gone := k.gone + {r.fact});
            Sketches(c, WithCurrent(Logged(b, r, v), cur), k1.(held := cur.Keys))
  {
    hide InLog;
    forall f, added ensures InLog(c, b.tables.datoms + [r], f, added)
      <==> InLog(c, b.tables.datoms, f, added) || (r.fact == f && r.added == added) {
      InLogSnoc(c, b.tables.datoms, r, f, added);
    }
  }

  lemma {:induction false} RetractFollows(c: Context, b: Batch, k: Sketch, attr: Attribute, f: Fact, v: Value)
    requires Working(c, b) && IsView(b.tables) && Sketches(c, b, k)
    ensures Follows(c, Retract(c, b, attr, f, v), Retracted(k, f))
  {
    var row, cur := RowFor(c, attr, f, v, false), b.tables.current - {f};
    assert DistinctRows(b.tables.datoms) && OwnRows(c, b.tables.datoms);
    DuplicatesMeans(c, b.tables.datoms, row);
    assert cur.Keys == b.tables.current.Keys - {f};
    hide TablesValid, OwnRows, DistinctRows, BindTypedColumns, InLog, ReassertedIn, Replay;
    if Duplicates(b.tables.datoms, row) {
      RetractGap(c, b.tables.datoms, row);
    } else {
      LoggedSketch(c, b, k, row, v, cur);
      assert Logged(WithCurrent(b, cur), row, v) == WithCurrent(Logged(b, row, v), cur);
    }
  }

  lemma {:induction false} ReplaceOneFollows(c: Context, b: Batch, k: Sketch, attr: Attribute, g: Fact)
    requires OwnRows(c, b.tables.datoms) && Sketches(c, b, k) && NoOther(b.tables.current, g)
    ensures var r := ReplaceValue(c, b, attr, g);
            && (r.Next? <==> g !in k.gone)
            && (r.Next? ==> Sketches(c, r.s, k.(held := k.held - {g}, gone := k.gone + {g})))
            && (r.Stop? ==> r.err.DuplicateReplacement?)
  {
    var decoded := DecodeOrNil(g.v, attr.valueType);
    var row := RowFor(c, attr, g, decoded, false);
    DuplicatesMeans(c, b.tables.datoms, row);
    hide OwnRows, BindTypedColumns, InLog, DecodeOrNil;
    if g !in k.gone {
      DeleteEAOfOne(b.tables.current, g);
      LoggedSketch(c, b, k, row, decoded, b.tables.current - {g});
      assert (b.tables.current - {g}).Keys == k.held - {g};
    }
  }

  lemma {:induction false} ReplaceFollows(c: Context, b: Batch, k: Sketch, attr: Attribute, f: Fact)
    requires Working(c, b) && Sketches(c, b, k) && f.a == attr.id
    requires attr.id in c.schema.byID && c.schema.byID[attr.id] == attr && attr.cardinality == CardOne
    ensures var r, old_ := Replace(c, b, attr, f.e), Replaced(attr, k.held, f);
            && (r.Next? <==> old_ * k.gone == {})
            && (r.Next? ==> Sketches(c, r.s, k.(held := k.held - old_, gone := k.gone + old_)))
            && (r.Stop? ==> r.err.DuplicateReplacement?)
  {
    var cur, old_ := b.tables.current, Replaced(attr, k.held, f);
    assert CardOneHolds(c.schema, cur) && OwnRows(c, b.tables.datoms);
    hide TablesValid, OwnRows, InLog, ReplaceValue, DeleteEA;
    if exists v :: ValueIs(cur, f.e, attr.id, v) {
      var v :| ValueIs(cur, f.e, attr.id, v)
        && Replace(c, b, attr, f.e) == ReplaceValue(c, b, attr, Fact(f.e, attr.id, v));
      var g := Fact(f.e, attr.id, v);
      assert old_ == {g} by {
        assert forall h :: h in cur && h.e == f.e && h.a == f.a ==> h == g;
      }
      if g in k.gone {
        assert g in old_ * k.gone;
      } else {
        assert old_ * k.gone == {};
      }
      ReplaceOneFollows(c, b, k, attr, g);
    } else {
      assert forall g :: g in cur && g.e == f.e && g.a == attr.id ==> ValueIs(cur, g.e, g.a, g.v);
      assert old_ == {} && k.(held := k.held - old_, gone := k.gone + old_) == k;
    }
  }

  lemma {:induction false} InsertFollows(c: Context, b: Batch, k: Sketch, attr: Attribute, f: Fact, v: Value)
    requires OwnRows(c, b.tables.datoms) && Sketches(c, b, k)
    ensures var r := Insert(c, b, attr, f, v);
            && (r.Next? <==> f !in k.made)
            && (r.Next? ==> Sketches(c, r.s, k.(held := k.held + {f}, made := k.made + {f})))
            && (r.Stop? ==> r.err.DuplicateAssertion?)
  {
    var row := RowFor(c, attr, f, v, true);
    var cur := b.tables.current[f := CellOf(row)];
    DuplicatesMeans(c, b.tables.datoms, row);
    hide OwnRows, BindTypedColumns, InLog;
    if f !in k.made {
      LoggedSketch(c, b, k, row, v, cur);
      assert cur.Keys == k.held + {f};
    }
  }

  lemma {:induction false} OtherHolder(attr: Attribute, c: Current, f: Fact)
    ensures HeldByOther(attr, c.Keys, f) <==> attr.identity && LookupEntity(c, attr.id, f.v, f.e).Some?
  {
    forall e ensures HolderIn(c.Keys, attr.id, f.v, f.e, e) <==> Holds(c, attr.id, f.v, f.e, e) {
    }
    hide HolderIn, Holds;
  }

  lemma {:induction false} AssertFollows(c: Context, b: Batch, k: Sketch, attr: Attribute, f: Fact, v: Value)
    requires Working(c, b) && Sketches(c, b, k)
    requires f.a == attr.id && attr.id in c.schema.byID && c.schema.byID[attr.id] == attr
    ensures Follows(c, Assert(c, b, attr, f, v), Asserted(attr, k, f))
  {
    var old_ := Replaced(attr, k.held, f);
    OtherHolder(attr, b.tables.current, f);
    hide TablesValid, OwnRows, HeldByOther, LookupEntity, Insert, Replace, InLog, Sketches;
    assert k.held == b.tables.current.Keys by { hide *; SketchHeld(c, b, k); }
    if !HeldByOther(attr, k.held, f) {
      if attr.cardinality == CardOne {
        ReplaceFollows(c, b, k, attr, f);
        var r := Replace(c, b, attr, f.e);
        if r.Next? {
          assert OwnRows(c, r.s.tables.datoms) by { ReplaceKeeps(c, b, attr, f.e); }
          InsertFollows(c, r.s, k.(held := k.held - old_, gone := k.gone + old_), attr, f, v);
        }
      } else {
        assert old_ == {} && k.held - old_ + {f} == k.held + {f} && k.gone + old_ == k.gone && old_ * k.gone == {};
        InsertFollows(c, b, k, attr, f, v);
      }
    }
  }

  lemma {:induction false} SketchHeld(c: Context, b: Batch, k: Sketch)
    requires Sketches(c, b, k)
    ensures k.held == b.tables.current.Keys
  {
  }

  lemma {:induction false} SeenSketch(c: Context, b: Batch, k: Sketch, seen: set<DatomKey>)
    requires Sketches(c, b, k)
    ensures Sketches(c, b.(seen := seen), k.(seen := seen))
  {
    hide InLog;
  }

  lemma {:induction false} AdmitFollows(c: Context, b: Batch, k: Sketch, attr: Attribute, f: Fact, td: TxDatom)
    requires Working(c, b) && IsView(b.tables) && Sketches(c, b, k)
    requires f.a == attr.id && attr.id in c.schema.byID && c.schema.byID[attr.id] == attr
    ensures Follows(c, Admit(c, b, attr, f, td), Admitted(c.dedup, k, attr, f, td.retract))
  {
    var key := DatomKey(f, td.retract);
    hide TablesValid, OwnRows, InLog, Retract, Assert, Retracted, Asserted, IsView, ReassertedIn;
    if !(c.dedup && key in b.seen) {
      var b1 := if c.dedup then b.(seen := b.seen + {key}) else b;
      SeenSketch(c, b, k, b1.seen);
      var k1 := k.(seen := b1.seen);
      if td.retract {
        RetractFollows(c, b1, k1, attr, f, td.v);
      } else {
        AssertFollows(c, b1, k1, attr, f, td.v);
      }
    }
  }

  lemma {:induction false} LookupFollows(s: Schema, c: Current, k: Sketch, ident: Bytes, v: Value)
    requires s.Valid() && IdentityHolds(s, c) && k.held == c.Keys
    ensures match EntityIn(s, k, ELookup(ident, v))
            case None => ResolveLookupRef(s, c, ident, v).Err?
            case Some((n, k1)) => k1 == k && ResolveLookupRef(s, c, ident, v) == Ok(n)
  {
    Failures.LookupMeans(s, c, ident, v);
    forall n ensures LookupNames(s, k.held, ident, v, n) <==> Failures.NamesEntity(s, c, ELookup(ident, v), n) {
      if LookupNames(s, k.held, ident, v, n) {
        assert Holds(c, s.byIdent[ident].id, EncodeValue(v, s.byIdent[ident].valueType).value, 0, n);
      }
    }
    hide EncodeValue, IdentityHolds, LookupNames, Failures.NamesEntity;
    if Failures.LookupFails(s, c, ident, v) {
      assert forall n :: ResolveLookupRef(s, c, ident, v) != Ok(n);
    } else {
      var n := ResolveLookupRef(s, c, ident, v).value;
      assert LookupNames(s, k.held, ident, v, n);
    }
  }

  lemma {:induction false} EntityFollows(c: Context, b: Batch, k: Sketch, e: Entity)
    requires Working(c, b) && Sketches(c, b, k)
    ensures match EntityIn(c.schema, k, e)
            case None => ResolveEntity(c, b, e).Err?
            case Some((n, k1)) =>
              && ResolveEntity(c, b, e).Ok? && ResolveEntity(c, b, e).value.0 == n
              && Sketches(c, ResolveEntity(c, b, e).value.1, k1)
  {
    assert c.schema.Valid() && IdentityHolds(c.schema, b.tables.current);
    hide TablesValid, OwnRows, InLog, ResolveLookupRef, LookupNames;
    if e.ELookup? {
      LookupFollows(c.schema, b.tables.current, k, e.ident, e.v);
    }
  }

  lemma {:induction false} LookupErrors(s: Schema, c: Current, ident: Bytes, v: Value)
    ensures ResolveLookupRef(s, c, ident, v).Err? ==> !ResolveLookupRef(s, c, ident, v).error.DuplicateRetraction?
  {
    hide EncodeValue, LookupEntity;
  }

  lemma {:induction false} StepFollows(c: Context, b: Batch, k: Sketch, td: TxDatom)
    requires Working(c, b) && IsView(b.tables) && Sketches(c, b, k)
    ensures Follows(c, StepDatom(c, b, td), OutlineDatom(c.schema, c.dedup, k, td))
  {
    EntityFollows(c, b, k, td.e);
    ResolveKeeps(c, b, td.e);
    if td.e.ELookup? {
      LookupErrors(c.schema, b.tables.current, td.e.ident, td.e.v);
    }
    if td.a in c.schema.byIdent {
      var attr := c.schema.byIdent[td.a];
      assert attr.id in c.schema.byID && c.schema.byID[attr.id] == attr;
      var re, enc := ResolveEntity(c, b, td.e), EncodeValue(td.v, attr.valueType);
      hide TablesValid, OwnRows, InLog, Admit, Admitted, EncodeValue, EntityIn, ResolveLookupRef, IsView, Sketches,
        ReassertedIn, Grown;
      if re.Ok? && enc.Ok? {
        var (e, b1) := re.value;
        assert b1.tables == b.tables && IsView(b1.tables) by { ViewStays(b.tables, b1.tables); }
        AdmitFollows(c, b1, EntityIn(c.schema, k, td.e).value.1, attr, Fact(e, attr.id, enc.value), td);
      }
    }
  }

  lemma {:induction false} ViewStays(t: Tables, t': Tables)
    requires IsView(t) && t == t'
    ensures IsView(t')
  {
  }

  lemma {:induction false} RunFollows(c: Context, b: Batch, k: Sketch, batch: seq<TxDatom>)
    requires Working(c, b) && IsView(b.tables) && Sketches(c, b, k)
    ensures Follows(c, RunAll(c, b, batch), OutlineAll(c.schema, c.dedup, k, batch))
    decreases |batch|
  {
    if batch != [] {
      StepFollows(c, b, k, batch[0]);
      StepKeeps(c, b, batch[0]);
      var r := StepDatom(c, b, batch[0]);
      hide Working, OutlineDatom, StepDatom, Sketches, Gap, Grown, IsView;
      if r.Next? {
        RunFollows(c, r.s, OutlineDatom(c.schema, c.dedup, k, batch[0]).k, batch[1..]);
      }
    }
  }

  lemma {:induction false} StartSketch(s: DbState, u: Upsert, tx: int, txTime: int, validFrom: int)
    requires StateValid(s) && tx !in s.tables.transactions
    ensures Sketches(ContextOf(s, u, tx, validFrom), Begun(s, u, tx, txTime),
                     Sketch(s.tables.current.Keys, {}, {}, u.tempids, {}, u.nextEID))
  {
  }

  lemma {:induction false} OutcomeByPass(s: DbState, tx: int, batch: seq<TxDatom>, txTime: int, validFrom: int)
    requires StateValid(s) && IsView(s.tables) && 1 <= tx < s.nextTx && tx !in s.tables.transactions
    ensures var (s', r) := Commit(s, tx, batch, txTime, validFrom); var u := FirstPass(s, batch);
            && (r.Ok? <==> u.Next? && OutlineAfter(s, u.s, batch).Goes?)
            && (r.Ok? ==> s'.tables.current.Keys == OutlineAfter(s, u.s, batch).k.held)
            && (IsView(s'.tables) <==> !(u.Next? && OutlineAfter(s, u.s, batch).Gaps?))
  {
    var u := FirstPass(s, batch);
    CommitKeeps(s, tx, batch, txTime, validFrom);
    FirstPassCounts(s.schema, s.tables.current, Upsert(map[], map[], s.nextEID), batch);
    if u.Next? {
      var c, b := ContextOf(s, u.s, tx, validFrom), Begun(s, u.s, tx, txTime);
      StartsWorking(s, tx, batch, txTime, validFrom);
      StartSketch(s, u.s, tx, txTime, validFrom);
      assert IsView(b.tables);
      hide StateValid, TablesValid, Working, FirstPass, RunAll, OutlineAll, IsView, ReassertedIn, InLog;
      RunFollows(c, b, Sketch(s.tables.current.Keys, {}, {}, u.s.tempids, {}, u.s.nextEID), batch);
    }
  }

  /** A transaction succeeds exactly when its outline goes through, and ends in the gap,
      current_datoms no longer the view of the log, exactly when its outline does. Both are
      settled by the batch, the schema, the counter and the facts that are current. */
  lemma {:induction false} OutcomeExactly(s: DbState, tx: int, batch: seq<TxDatom>, txTime: int, validFrom: int)
    requires StateValid(s) && IsView(s.tables) && 1 <= tx < s.nextTx && tx !in s.tables.transactions
    requires BelowCounter(s.tables.current, s.nextEID)
    ensures var (s', r) := Commit(s, tx, batch, txTime, validFrom);
            && (r.Ok? <==> OutlineOf(s, batch).Goes?)
            && (r.Ok? ==> s'.tables.current.Keys == OutlineOf(s, batch).k.held)
            && (IsView(s'.tables) <==> !OutlineOf(s, batch).Gaps?)
  {
    FirstPassAcceptsExactly(s.schema, s.tables.current, s.nextEID, batch);
    OutcomeByPass(s, tx, batch, txTime, validFrom);
  }

  /** A transaction that succeeds never ends in the gap. */
  lemma {:induction false} SuccessKeepsView(s: DbState, tx: int, batch: seq<TxDatom>, txTime: int, validFrom: int)
    requires StateValid(s) && IsView(s.tables) && 1 <= tx < s.nextTx
    requires Commit(s, tx, batch, txTime, validFrom).1.Ok?
    ensures IsView(Commit(s, tx, batch, txTime, validFrom).0.tables)
  {
    hide StateValid, IsView, ReassertedIn, Commit;
    CommitKeeps(s, tx, batch, txTime, validFrom);
  }

  // ---------------------------------------------------------------------
  // Batches that cannot end in the gap
  // ---------------------------------------------------------------------

  /** The datom asserts, or retracts, the attribute and value of a fact. */
  predicate Says(s: Schema, td: TxDatom, f: Fact, retract: bool) {
    && td.retract == retract && td.a in s.byIdent && s.byIdent[td.a].id == f.a
    && EncodeValue(td.v, s.byIdent[td.a].valueType) == Ok(f.v)
  }

  ghost predicate Single(s: Schema, f: Fact) {
    f.a in s.byID && s.byID[f.a].cardinality == CardOne
  }

  ghost predicate SaysBefore(s: Schema, batch: seq<TxDatom>, j: int, f: Fact, retract: bool) {
    exists i :: 0 <= i < j <= |batch| && Says(s, batch[i], f, retract)
  }

  /** An assertion of the fact's attribute and value, of a CardOne attribute or after a retraction of the same. */
  ghost predicate ReassertsBefore(s: Schema, batch: seq<TxDatom>, k: int, f: Fact) {
    exists j :: 0 <= j < k <= |batch| && Says(s, batch[j], f, false)
      && (Single(s, f) || SaysBefore(s, batch, j, f, true))
  }

  /** A retraction at n of what the batch asserted before, as above. */
  ghost predicate TakesBack(s: Schema, batch: seq<TxDatom>, n: int, f: Fact) {
    0 <= n < |batch| && Says(s, batch[n], f, true) && ReassertsBefore(s, batch, n, f)
  }

  ghost predicate Explained(s: Schema, batch: seq<TxDatom>, n: int, k: Sketch) {
    forall f :: f in k.gone ==>
      && (Single(s, f) || SaysBefore(s, batch, n, f, true))
      && (f in k.held ==> ReassertsBefore(s, batch, n, f))
  }

  lemma {:induction false} Later(s: Schema, batch: seq<TxDatom>, n: nat, f: Fact)
    requires n < |batch|
    ensures SaysBefore(s, batch, n, f, true) ==> SaysBefore(s, batch, n + 1, f, true)
    ensures ReassertsBefore(s, batch, n, f) ==> ReassertsBefore(s, batch, n + 1, f)
    ensures Says(s, batch[n], f, true) ==> SaysBefore(s, batch, n + 1, f, true)
    ensures Says(s, batch[n], f, false) && (Single(s, f) || SaysBefore(s, batch, n, f, true))
            ==> ReassertsBefore(s, batch, n + 1, f)
  {
    hide Says, Single;
  }

  lemma {:induction false} StepExplained(s: Schema, dedup: bool, batch: seq<TxDatom>, n: nat, k: Sketch)
    requires s.Valid() && n < |batch| && Explained(s, batch, n, k)
    ensures match OutlineDatom(s, dedup, k, batch[n])
            case Goes(k1) => Explained(s, batch, n + 1, k1)
            case Fails => true
            case Gaps(f) => TakesBack(s, batch, n, f)
  {
    var td := batch[n];
    forall f ensures Says(s, td, f, true) ==> SaysBefore(s, batch, n + 1, f, true) {
      Later(s, batch, n, f);
    }
    if td.a in s.byIdent && EntityIn(s, k, td.e).Some? && EncodeValue(td.v, s.byIdent[td.a].valueType).Ok? {
      var attr := s.byIdent[td.a];
      var (e, k1) := EntityIn(s, k, td.e).value;
      var f := Fact(e, attr.id, EncodeValue(td.v, attr.valueType).value);
      assert k1.gone == k.gone && k1.held == k.held && Says(s, td, f, td.retract);
      assert forall g :: g in Replaced(attr, k.held, f) ==> Single(s, g);
      hide SaysBefore, ReassertsBefore, Says, EncodeValue, EntityIn, HeldByOther, Replaced, Schema.Valid;
      match OutlineDatom(s, dedup, k, td) {
        case Goes(k2) =>
          forall g | g in k2.gone
            ensures Single(s, g) || SaysBefore(s, batch, n + 1, g, true)
            ensures g in k2.held ==> ReassertsBefore(s, batch, n + 1, g)
          {
            Later(s, batch, n, g);
          }
        case Fails =>
        case Gaps(g) =>
      }
    }
  }

  lemma {:induction false} RunExplained(s: Schema, dedup: bool, batch: seq<TxDatom>, n: nat, k: Sketch)
    requires s.Valid() && n <= |batch| && Explained(s, batch, n, k)
    requires OutlineAll(s, dedup, k, batch[n..]).Gaps?
    ensures exists m, f :: TakesBack(s, batch, m, f)
    decreases |batch| - n
  {
    hide Schema.Valid, OutlineDatom, Explained, TakesBack;
    if n < |batch| {
      StepExplained(s, dedup, batch, n, k);
      assert batch[n..][0] == batch[n] && batch[n..][1..] == batch[n + 1..];
      match OutlineDatom(s, dedup, k, batch[n]) {
        case Goes(k1) => RunExplained(s, dedup, batch, n + 1, k1);
        case Fails =>
        case Gaps(f) => assert TakesBack(s, batch, n, f);
      }
    }
  }

  /** So a batch keeps current_datoms the view of the log, successful or not, unless it
      retracts an attribute's value that it asserted before, and either the attribute is
      CardOne or it had retracted the same before that. */
  lemma {:induction false} NothingTakenBackNoGap(s: DbState, tx: int, batch: seq<TxDatom>, txTime: int, validFrom: int)
    requires StateValid(s) && IsView(s.tables) && 1 <= tx < s.nextTx && tx !in s.tables.transactions
    requires forall n, f :: !TakesBack(s.schema, batch, n, f)
    ensures IsView(Commit(s, tx, batch, txTime, validFrom).0.tables)
  {
    OutcomeByPass(s, tx, batch, txTime, validFrom);
    assert s.schema.Valid();
    var u := FirstPass(s, batch).s;
    var k := Sketch(s.tables.current.Keys, {}, {}, u.tempids, {}, u.nextEID);
    assert Explained(s.schema, batch, 0, k);
    assert batch[0..] == batch;
    hide StateValid, TakesBack, Commit, IsView, FirstPass, OutlineAll, Explained, Schema.Valid;
    if OutlineAfter(s, u, batch).Gaps? {
      RunExplained(s.schema, u.pending != map[], batch, 0, k);
    }
  }

  /** No datom retracts what a datom before it asserts, entities apart. */
  predicate Harmless(batch: seq<TxDatom>) {
    forall i, j :: 0 <= i < j < |batch| && !batch[i].retract && batch[j].retract
      ==> batch[i].a != batch[j].a || batch[i].v != batch[j].v
  }

  lemma {:induction false} SameWords(s: Schema, td: TxDatom, td': TxDatom, f: Fact)
    requires s.Valid() && Says(s, td, f, false) && Says(s, td', f, true)
    ensures td.a == td'.a && td.v == td'.v && !td.retract && td'.retract
  {
    hide EncodeValue, DecodeValue, WellFormed;
    ValueRoundTrip(td.v, s.byIdent[td.a].valueType);
    ValueRoundTrip(td'.v, s.byIdent[td'.a].valueType);
  }

  lemma {:induction false} HarmlessTakesNothingBack(s: Schema, batch: seq<TxDatom>, n: int, f: Fact)
    requires s.Valid() && Harmless(batch)
    ensures !TakesBack(s, batch, n, f)
  {
    hide Says, Schema.Valid;
    if TakesBack(s, batch, n, f) {
      var j :| 0 <= j < n && Says(s, batch[j], f, false);
      SameWords(s, batch[j], batch[n], f);
    }
  }

  /** A harmless batch never ends in the gap, whatever the state. */
  lemma {:induction false} HarmlessKeepsView(s: DbState, tx: int, batch: seq<TxDatom>, txTime: int, validFrom: int)
    requires StateValid(s) && IsView(s.tables) && 1 <= tx < s.nextTx && tx !in s.tables.transactions && Harmless(batch)
    ensures var (s', r) := Commit(s, tx, batch, txTime, validFrom); IsView(s'.tables) && !GapIn(tx, s'.tables, r)
  {
    assert s.schema.Valid();
    hide StateValid, Commit, IsView, ReassertedIn, Harmless, TakesBack, Schema.Valid;
    forall n, f ensures !TakesBack(s.schema, batch, n, f) {
      HarmlessTakesNothingBack(s.schema, batch, n, f);
    }
    NothingTakenBackNoGap(s, tx, batch, txTime, validFrom);
    CommitKeeps(s, tx, batch, txTime, validFrom);
  }
}
