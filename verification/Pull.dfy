/** Pull under a view (pull.go): the conditions that temporalParams adds to a statement
    over one table, what they select, and what an entity had after a past transaction. */
module Pull {
  import opened Prelude
  import opened Values
  import opened Store
  import opened Sql
  import opened AsOf
  import opened EndToEnd
  import TimeTravel
  import Runs

  // ---------------------------------------------------------------------
  // The conditions
  // ---------------------------------------------------------------------

  function Is(r: Alias, col: Column): Atom { ACmp(Eq, OCol(r, col), OCol(D(0), col)) }

  /** A retraction of the row's fact, later than the row and by the view's transaction. */
  function LaterRetraction(): seq<Atom> {
    var r := DR(0);
    [Is(r, ColE), Is(r, ColA), Is(r, ColV), ACmp(Eq, OCol(r, ColAdded), OLit(SInt(0))),
     ACmp(Gt, OCol(r, ColTx), OCol(D(0), ColTx)),
     ACmp(Le, OCol(r, ColTx), OParam)]
  }

  function IsAssertion(): Frag { FAtom(ACmp(Eq, OCol(D(0), ColAdded), OLit(SInt(1)))) }

  function AtMost(col: Column): Frag { FAtom(ACmp(Le, OCol(D(0), col), OParam)) }

  function EndsAfter(): Frag { FAtom(ACmp(Gt, OCoalesce(D(0), ColValidTo, SInt(MAX_INT64)), OParam)) }

  /** Some retraction in the log is later than the row and by transaction t. */
  predicate RetractedLater(log: set<Row>, t: int, d: Row) {
    exists r :: r in log && r.fact == d.fact && !r.added && d.tx < r.tx <= t
  }

  /** The rows a view shows to Pull; unlike Query, a view with a transaction ignores its
      valid time. */
  predicate PullShown(log: set<Row>, view: View, d: Row) {
    if view.txID > 0 then d.added && d.tx <= view.txID && !RetractedLater(log, view.txID, d)
    else if view.validTime.Some? then d.added && d.validFrom <= view.validTime.value < MAX_INT64
    else true
  }

  /** The conditions with these parameters, on a row called d0, say that it is shown. */
  ghost predicate Selects(extra: seq<Frag>, params: seq<Value>, view: View) {
    && FragsHoles(extra) == |params|
    && forall db, d :: FragsHold(BindFrags(extra, params), RowEnv(d), db) <==> PullShown(db.datoms, view, d)
  }

  function RowEnv(d: Row): Env { map[D(0) := d] }

  /** temporalParams: the table, the conditions beside e = ?, and all parameters. */
  method TemporalParams(eid: i64, view: View) returns (table: Table, extra: seq<Frag>, params: seq<Value>)
    ensures table == if view.IsAsOf() then DatomsLog else CurrentDatoms
    ensures params != [] && params[0] == VInt(eid) && Selects(extra, params[1..], view)
  {
    params := [VInt(eid)];
    if view.txID > 0 {
      table := DatomsLog;
      extra := [IsAssertion(), AtMost(ColTx), FNotExists([From(DatomsLog, DR(0))], LaterRetraction())];
      params := params + [VInt(view.txID), VInt(view.txID)];
      AsOfSelects(extra, params[1..], view);
    } else if view.validTime.Some? {
      table := DatomsLog;
      extra := [IsAssertion(), AtMost(ColValidFrom), EndsAfter()];
      params := params + [VInt(view.validTime.value), VInt(view.validTime.value)];
      ValidSelects(extra, params[1..], view);
    } else {
      table, extra := CurrentDatoms, [];
      assert params[1..] == [];
    }
  }

  // ---------------------------------------------------------------------
  // What they mean
  // ---------------------------------------------------------------------

  lemma {:induction false} Three(f: Frag, g: Frag, h: Frag, v: Value, w: Value)
    requires FragHoles(f) == 0 && FragHoles(g) == 1 && FragHoles(h) == 1
    ensures FragsHoles([f, g, h]) == 2
    ensures BindFrags([f, g, h], [v, w]) == [BindFrag(f, [v, w]), BindFrag(g, [v, w]), BindFrag(h, [w])]
  {
    hide FragHoles, BindFrag;
    assert [f, g, h][1..] == [g, h] && [g, h][1..] == [h] && [h][1..] == [];
    assert Drop([v, w], 0) == [v, w] && Drop([v, w], 1) == [w];
    assert FragsHoles([h]) == 1 && BindFrags([h], [w]) == [BindFrag(h, [w])];
    assert FragsHoles([g, h]) == 2 && BindFrags([g, h], [v, w]) == [BindFrag(g, [v, w]), BindFrag(h, [w])];
    assert BindFrags([f, g, h], [v, w]) == [BindFrag(f, [v, w])] + BindFrags([g, h], [v, w]);
  }

  lemma {:induction false} NoHoles(atoms: seq<Atom>)
    requires forall a :: a in atoms ==> AtomHoles(a) == 0
    ensures AtomsHoles(atoms) == 0 && BindAtoms(atoms, []) == atoms
  {
    if atoms != [] {
      assert AtomHoles(atoms[0]) == 0 && !atoms[0].AUdf? ==> BindAtom(atoms[0], []) == atoms[0];
      if atoms[0].AUdf? { NoHolesIn(atoms[0].args); }
      hide AtomHoles, BindAtom;
      NoHoles(atoms[1..]);
    }
  }

  lemma {:induction false} NoHolesIn(os: seq<Operand>)
    requires HolesInAll(os) == 0
    ensures BindOperands(os, []) == os
  {
    if os != [] {
      NoHolesIn(os[1..]);
    }
  }

  lemma {:induction false} RetractionBinds(t: i64)
    ensures var open, last := LaterRetraction()[..5], ACmp(Le, OCol(DR(0), ColTx), OLit(SInt(t)));
            AtomsHoles(LaterRetraction()) == 1 && BindAtoms(LaterRetraction(), [VInt(t)]) == open + [last]
  {
    var where := LaterRetraction();
    var open, hole, p := where[..5], where[5], [VInt(t)];
    assert where == open + [hole] && p == [] + p;
    assert forall i :: 0 <= i < 5 ==> open[i] == where[i];
    NoHoles(open);
    assert BindAtoms([hole], p) == [ACmp(Le, OCol(DR(0), ColTx), OLit(SInt(t)))] && AtomsHoles([hole]) == 1 by {
      assert [hole][1..] == [];
      assert Drop(p, 0) == p;
    }
    hide BindAtoms, AtomsHoles, LaterRetraction;
    BindAtomsConcat(open, [hole], [], p);
  }

  lemma {:induction false} RetractionMeans(t: i64, both: Env, db: Db)
    requires DR(0) in both && D(0) in both
    ensures var row, d := both[DR(0)], both[D(0)];
            AtomsHold(BindAtoms(LaterRetraction(), [VInt(t)]), both, db)
            <==> row.fact == d.fact && !row.added && d.tx < row.tx <= t
  {
    RetractionBinds(t);
    RetractsMeans(DR(0), D(0), t, both, db);
    var row, d, later := both[DR(0)], both[D(0)], ACmp(Gt, OCol(DR(0), ColTx), OCol(D(0), ColTx));
    var atoms, retracts := BindAtoms(LaterRetraction(), [VInt(t)]), Retracts(DR(0), D(0), OLit(SInt(t)));
    assert AtomHolds(later, both, db) <==> d.tx < row.tx;
    hide AtomHolds, BindAtoms;
    assert atoms == retracts[..4] + [later, retracts[4]];
    assert forall a :: a in atoms <==> a in retracts || a == later;
  }

  lemma {:induction false} NotRetractedMeans(t: i64, d: Row, db: Db)
    ensures FragHolds(BindFrag(FNotExists([From(DatomsLog, DR(0))], LaterRetraction()), [VInt(t)]), RowEnv(d), db)
            <==> !RetractedLater(db.datoms, t, d)
  {
    var from, atoms, r, env := [From(DatomsLog, DR(0))], BindAtoms(LaterRetraction(), [VInt(t)]), DR(0), RowEnv(d);
    hide BindAtoms, LaterRetraction, AtomsHold, Ranges;
    if row :| row in db.datoms && row.fact == d.fact && !row.added && d.tx < row.tx <= t {
      var inner: Env := map[r := row];
      RetractionMeans(t, env + inner, db);
      OneTable(r, inner, db);
    }
    if inner: Env :| Ranges(from, inner, db) && AtomsHold(atoms, env + inner, db) {
      OneTable(r, inner, db);
      RetractionMeans(t, env + inner, db);
    }
  }

  lemma {:induction false} ThreeHold(f: Frag, g: Frag, h: Frag, env: Env, db: Db)
    ensures FragsHold([f, g, h], env, db) <==> FragHolds(f, env, db) && FragHolds(g, env, db) && FragHolds(h, env, db)
  {
    hide FragHolds;
    var fs := [f, g, h];
    assert fs[0] in fs && fs[1] in fs && fs[2] in fs;
  }

  lemma {:induction false} AsOfSelects(extra: seq<Frag>, params: seq<Value>, view: View)
    requires view.txID > 0 && params == [VInt(view.txID), VInt(view.txID)]
    requires extra == [IsAssertion(), AtMost(ColTx), FNotExists([From(DatomsLog, DR(0))], LaterRetraction())]
    ensures Selects(extra, params, view)
  {
    var t := view.txID;
    RetractionBinds(t);
    Three(extra[0], extra[1], extra[2], VInt(t), VInt(t));
    hide LaterRetraction, RetractedLater, BindFrags;
    forall db, d ensures FragsHold(BindFrags(extra, params), RowEnv(d), db) <==> PullShown(db.datoms, view, d) {
      NotRetractedMeans(t, d, db);
      AssertedMeans(ColTx, t, params, d, db);
      hide BindFrag, FragHolds;
      ThreeHold(BindFrag(extra[0], params), BindFrag(extra[1], params), BindFrag(extra[2], [VInt(t)]), RowEnv(d), db);
    }
  }

  lemma {:induction false} AssertedMeans(col: Column, n: i64, params: seq<Value>, d: Row, db: Db)
    requires (col == ColTx || col == ColValidFrom) && params != [] && params[0] == VInt(n)
    ensures FragHolds(BindFrag(IsAssertion(), params), RowEnv(d), db) <==> d.added
    ensures FragHolds(BindFrag(AtMost(col), params), RowEnv(d), db)
            <==> (if col == ColTx then d.tx else d.validFrom) <= n
  {
    assert Drop(params, 0) == params;
  }

  lemma {:induction false} ValidSelects(extra: seq<Frag>, params: seq<Value>, view: View)
    requires view.txID <= 0 && view.validTime.Some?
             && params == [VInt(view.validTime.value), VInt(view.validTime.value)]
    requires extra == [IsAssertion(), AtMost(ColValidFrom), EndsAfter()]
    ensures Selects(extra, params, view)
  {
    var v := VInt(view.validTime.value);
    Three(extra[0], extra[1], extra[2], v, v);
    hide BindFrags;
    forall db, d ensures FragsHold(BindFrags(extra, params), RowEnv(d), db) <==> PullShown(db.datoms, view, d) {
      AssertedMeans(ColValidFrom, v.n, params, d, db);
      assert FragHolds(BindFrag(EndsAfter(), [v]), RowEnv(d), db) <==> v.n < MAX_INT64;
      hide BindFrag, FragHolds;
      ThreeHold(BindFrag(extra[0], params), BindFrag(extra[1], params), BindFrag(extra[2], [v]), RowEnv(d), db);
    }
  }

  // ---------------------------------------------------------------------
  // The statements
  // ---------------------------------------------------------------------

  function ColumnIs(col: Column): Frag { FAtom(ACmp(Eq, OCol(D(0), col), OParam)) }

  /** Pull's statements put e = ?, or e = ? AND a = ?, before the conditions and bind the
      parameters in the same order: the wildcard statement selects the rows of the entity,
      the other one those of one attribute. */
  lemma {:induction false} PullSelects(eid: i64, attr: i64, extra: seq<Frag>, params: seq<Value>, view: View, db: Db,
                                       d: Row)
    requires Selects(extra, params, view)
    ensures FragsHold(BindFrags([ColumnIs(ColE)] + extra, [VInt(eid)] + params), RowEnv(d), db)
            <==> d.fact.e == eid && PullShown(db.datoms, view, d)
    ensures FragsHold(BindFrags([ColumnIs(ColE), ColumnIs(ColA)] + extra, [VInt(eid), VInt(attr)] + params),
                      RowEnv(d), db)
            <==> d.fact.e == eid && d.fact.a == attr && PullShown(db.datoms, view, d)
  {
    var rest := [ColumnIs(ColA)] + extra;
    assert [ColumnIs(ColE), ColumnIs(ColA)] + extra == [ColumnIs(ColE)] + rest;
    assert [VInt(eid), VInt(attr)] + params == [VInt(eid)] + ([VInt(attr)] + params);
    hide BindFrags, FragsHold, FragsHoles, PullShown, ColumnIs;
    OneMore(ColE, eid, extra, params, d, db);
    OneMore(ColA, attr, extra, params, d, db);
    OneMore(ColE, eid, rest, [VInt(attr)] + params, d, db);
  }

  /** One more condition on an id column in front. */
  lemma {:induction false} OneMore(col: Column, n: i64, fs: seq<Frag>, params: seq<Value>, d: Row, db: Db)
    requires col == ColE || col == ColA
    ensures FragsHold(BindFrags([ColumnIs(col)] + fs, [VInt(n)] + params), RowEnv(d), db)
            <==> ColumnValue(d, col) == SInt(n) && FragsHold(BindFrags(fs, params), RowEnv(d), db)
  {
    var one, f := [ColumnIs(col)], FAtom(ACmp(Eq, OCol(D(0), col), OLit(SInt(n))));
    assert one[1..] == [];
    assert FragHoles(one[0]) == 1 && FragsHoles(one[1..]) == 0;
    assert FragsHoles(one) == 1;
    assert BindFrag(one[0], [VInt(n)]) == f && BindFrags(one[1..], Drop([VInt(n)], 1)) == [];
    assert BindFrags(one, [VInt(n)]) == [f];
    assert FragHolds(f, RowEnv(d), db) <==> ColumnValue(d, col) == SInt(n);
    BindFragsConcat(one, fs, [VInt(n)], params);
    hide BindFrags, FragHolds, FragsHoles, ColumnIs, ColumnValue;
    FragsAppend([f], BindFrags(fs, params), RowEnv(d), db);
    assert forall g :: g in [f] <==> g == f;
  }

  lemma {:induction false} FragsAppend(fs: seq<Frag>, gs: seq<Frag>, env: Env, db: Db)
    ensures FragsHold(fs + gs, env, db) <==> FragsHold(fs, env, db) && FragsHold(gs, env, db)
  {
    hide FragHolds;
    forall f ensures f in fs + gs <==> f in fs || f in gs { }
  }

  // ---------------------------------------------------------------------
  // Pulling the past
  // ---------------------------------------------------------------------

  /** The facts Pull reads for an entity under AsOf(t). */
  ghost predicate Pulled(log: seq<Row>, eid: int, t: i64, f: Fact) {
    exists d :: d in log && d.fact == f && f.e == eid && PullShown(LogRows(log), View(t, None), d)
  }

  lemma {:induction false} PulledIsVisible(log: seq<Row>, eid: int, t: i64, f: Fact)
    requires t > 0
    ensures Pulled(log, eid, t, f) <==> f.e == eid && TimeTravel.PullVisible(log, t, f)
  {
    forall d | d in log ensures PullShown(LogRows(log), View(t, None), d) <==> TimeTravel.PullShows(log, t, d) {
      assert forall r :: r in LogRows(log) <==> r in log;
    }
    hide PullShown, TimeTravel.PullShows;
  }

  /** On AsOf(t) Pull reads, for every entity, what current_datoms had for it after t. */
  ghost predicate PullsPast(acts: seq<Runs.Action>, t: i64) {
    forall eid, f :: Pulled(Runs.Run(acts).db.tables.datoms, eid, t, f)
      <==> f.e == eid && f in TimeTravel.SnapshotAt(Runs.Run(acts).history, t)
  }

  lemma {:induction false} PulledThen(acts: seq<Runs.Action>, t: i64)
    requires TimeTravel.InOrder(acts) && !TimeTravel.AssertsThenRetracts(Runs.Run(acts).db.tables.datoms) && t > 0
    ensures PullsPast(acts, t)
  {
    var s := Runs.Run(acts);
    TimeTravel.PullTimeTravel(acts);
    hide Runs.Run, TimeTravel.PullVisible, TimeTravel.SnapshotAt, Pulled;
    forall eid, f ensures Pulled(s.db.tables.datoms, eid, t, f)
      <==> f.e == eid && f in TimeTravel.SnapshotAt(s.history, t) {
      PulledIsVisible(s.db.tables.datoms, eid, t, f);
    }
  }

  /** Pull travels to every past transaction exactly when no transaction retracted a fact
      after asserting it. */
  lemma {:induction false} PullTravelsExactly(acts: seq<Runs.Action>)
    requires TimeTravel.InOrder(acts) && Runs.Run(acts).db.nextTx <= TWO63
    ensures (forall t: i64 :: t > 0 ==> PullsPast(acts, t))
            <==> !TimeTravel.AssertsThenRetracts(Runs.Run(acts).db.tables.datoms)
  {
    var s := Runs.Run(acts);
    var log := s.db.tables.datoms;
    if TimeTravel.AssertsThenRetracts(log) {
      Runs.EveryRun(acts);
      TimeTravel.RunRecorded(acts);
      var i: nat, j: nat :| TimeTravel.UndoneAt(log, i, j);
      assert log[i] in log && 1 <= log[i].tx < TWO63;
      var t: i64, f := log[i].tx, log[i].fact;
      TimeTravel.UndoneShows(log, i, j);
      TimeTravel.SnapshotIsReplay(s.history, t);
      hide Runs.Run, TimeTravel.SnapshotAt, TimeTravel.PullVisible, Pulled;
      PulledIsVisible(log, f.e, t, f);
      assert !PullsPast(acts, t);
    } else {
      forall t: i64 | t > 0 ensures PullsPast(acts, t) {
        PulledThen(acts, t);
      }
    }
  }
}
