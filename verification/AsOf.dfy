/** AsOf views of a query. applyAsOf (query_api.go:312-412) points the tables at the log
    and adds filters; what it compiles to is shown to be the same query over the rows
    that the view shows, as if they were current_datoms. */
module AsOf {
  import opened Prelude
  import opened Values
  import opened Store
  import opened Sql
  import opened Datalog
  import opened Algebra
  import opened Places
  import opened Placeholders
  import opened Shapes
  import opened Compiler
  import opened Correctness
  import opened Substitution

  // ---------------------------------------------------------------------
  // The rewriting
  // ---------------------------------------------------------------------

  /** A transaction id, 0 for none, and a valid time. */
  datatype View = View(txID: i64, validTime: Option<i64>) {
    predicate IsAsOf() { txID > 0 || validTime.Some? }
  }

  const MAX_INT64: i64 := 9223372036854775807

  function RetractionAlias(al: Alias): Alias {
    match al
    case D(i) => DR(i)
    case DR(i) => DR(i)
  }

  /** A comparison of a column with a constant; the name of the variable is not used. */
  function ColumnFilter(fn: Bytes, i: int, col: Column, v: Value): Filter {
    Filter(fn, [FVar([95], i, col, None), FConst(v, None)])
  }

  function FiltersAt(i: int, view: View): seq<Filter> {
    [ColumnFilter([61], i, ColAdded, VInt(1))]
    + (if view.txID > 0 then [ColumnFilter([60, 61], i, ColTx, VInt(view.txID))] else [])
    + (if view.validTime.Some? then [ColumnFilter([60, 61], i, ColValidFrom, VInt(view.validTime.value))] else [])
  }

  /** The row r retracts the fact of the row al by a given transaction. */
  function Retracts(r: Alias, al: Alias, txID: Operand): seq<Atom> {
    [ACmp(Eq, OCol(r, ColE), OCol(al, ColE)), ACmp(Eq, OCol(r, ColA), OCol(al, ColA)),
     ACmp(Eq, OCol(r, ColV), OCol(al, ColV)),
     ACmp(Eq, OCol(r, ColAdded), OLit(SInt(0))), ACmp(Le, OCol(r, ColTx), txID)]
  }

  /** NOT EXISTS a retraction of the row's fact, whether or not it is later than the row. */
  function NoRetraction(al: Alias, txID: i64): RawFilter {
    var r := RetractionAlias(al);
    RawFilter(FNotExists([From(DatomsLog, r)], Retracts(r, al, OParam)), [VInt(txID)])
  }

  function StillValid(al: Alias, ms: i64): RawFilter {
    RawFilter(FAtom(ACmp(Gt, OCoalesce(al, ColValidTo, SInt(MAX_INT64)), OParam)), [VInt(ms)])
  }

  function RawsAt(al: Alias, view: View): seq<RawFilter> {
    (if view.txID > 0 then [NoRetraction(al, view.txID)] else [])
    + (if view.validTime.Some? then [StillValid(al, view.validTime.value)] else [])
  }

  /** The filters added for the first n tables. */
  function AddedFilters(n: nat, view: View): seq<Filter> {
    if n == 0 then [] else AddedFilters(n - 1, view) + FiltersAt(n - 1, view)
  }

  function AddedRaws(tbs: seq<TableBinding>, view: View): seq<RawFilter> {
    if tbs == [] then [] else AddedRaws(tbs[..|tbs| - 1], view) + RawsAt(tbs[|tbs| - 1].alias, view)
  }

  function OnLog(tbs: seq<TableBinding>): (r: seq<TableBinding>)
    ensures |r| == |tbs| && forall i :: 0 <= i < |tbs| ==> r[i] == tbs[i].(table := DatomsLog)
  {
    if tbs == [] then [] else OnLog(tbs[..|tbs| - 1]) + [tbs[|tbs| - 1].(table := DatomsLog)]
  }

  /** applyAsOf. The bodies of negations keep reading current_datoms. */
  function ApplyAsOf(aq: Algebraic, view: View): Algebraic {
    aq.(body := aq.body.(tables := OnLog(aq.body.tables), filters :=
                         aq.body.filters + AddedFilters(|aq.body.tables|, view)),
        raws := aq.raws + AddedRaws(aq.body.tables, view))
  }

  // ---------------------------------------------------------------------
  // The rows a view shows
  // ---------------------------------------------------------------------

  /** Some retraction of the row's fact is in the log by the view's transaction. */
  predicate RetractedBy(log: set<Row>, t: int, f: Fact) {
    exists r :: r in log && r.fact == f && !r.added && r.tx <= t
  }

  predicate RowShown(log: set<Row>, view: View, d: Row) {
    && d.added
    && (view.txID > 0 ==> d.tx <= view.txID && !RetractedBy(log, view.txID, d.fact))
    && (view.validTime.Some? ==> d.validFrom <= view.validTime.value < MAX_INT64)
  }

  function Shown(log: set<Row>, view: View): set<Row> {
    set d | d in log && RowShown(log, view, d)
  }

  // ---------------------------------------------------------------------
  // The added conditions say that a row is shown
  // ---------------------------------------------------------------------

  lemma {:induction false} IntCompare(n: int, m: int)
    ensures Compare(Le, SInt(n), SInt(m)) <==> n <= m
    ensures Compare(Gt, SInt(n), SInt(m)) <==> n > m
    ensures Compare(Eq, SInt(n), SInt(m)) <==> n == m
  {
  }

  lemma {:induction false} ColumnFilterMeans(tbs: seq<TableBinding>, fn: Bytes, op: Op, i: int, col: Column, v: i64,
                                             env: Env, db: Db)
    requires Builtin(fn) == Some(op) && 0 <= i < |tbs| && tbs[i].alias in env
    ensures AtomHolds(ClosedFilter(tbs, ColumnFilter(fn, i, col, VInt(v))), env, db)
            <==> Compare(op, ColumnValue(env[tbs[i].alias], col), SInt(v))
  {
    hide Compare, ColumnValue, Builtin;
    var f := ColumnFilter(fn, i, col, VInt(v));
    var os := ClosedArgs(tbs, f.args);
    assert os[0] == ClosedArg(tbs, f.args[0]) && os[1] == ClosedArg(tbs, f.args[1]);
    assert ReadCol(col, None) == col;
  }

  lemma {:induction false} RetractsBinds(r: Alias, al: Alias, txID: i64)
    ensures BindAtoms(Retracts(r, al, OParam), [VInt(txID)]) == Retracts(r, al, OLit(SInt(txID)))
            && AtomsHoles(Retracts(r, al, OParam)) == 1
  {
    var where, p := Retracts(r, al, OParam), [VInt(txID)];
    assert Drop(p, 0) == p;
    assert forall k :: 0 <= k < 4 ==> AtomHoles(where[k]) == 0 && BindAtom(where[k], p) == where[k];
    assert AtomHoles(where[4]) == 1 && BindAtom(where[4], p) == Retracts(r, al, OLit(SInt(txID)))[4];
    hide AtomHoles, BindAtom, Retracts;
    BindsLast(where, Retracts(r, al, OLit(SInt(txID))), p);
  }

  lemma {:induction false} BindsLast(where: seq<Atom>, atoms: seq<Atom>, p: seq<Value>)
    requires |where| == |atoms| == 5 && where[..4] == atoms[..4] && |p| == 1
    requires forall k :: 0 <= k < 4 ==> AtomHoles(where[k]) == 0 && BindAtom(where[k], p) == where[k]
    requires AtomHoles(where[4]) == 1 && BindAtom(where[4], p) == atoms[4]
    ensures BindAtoms(where, p) == atoms && AtomsHoles(where) == 1
  {
    hide AtomHoles, BindAtom;
    assert Drop(p, 0) == p;
    assert forall k :: 0 <= k < 4 ==> where[..4][k] == where[k] && atoms[..4][k] == atoms[k];
    assert BindAtoms(where[5..], Drop(p, 1)) == [];
    assert BindAtoms(where[4..], p) == [atoms[4]] + []
      && AtomsHoles(where[4..]) == 1 by { assert where[4..][1..] == where[5..]; }
    assert BindAtoms(where[3..], p) == [atoms[3]] + [atoms[4]]
      && AtomsHoles(where[3..]) == 1 by { assert where[3..][1..] == where[4..]; }
    assert BindAtoms(where[2..], p) == [atoms[2]] + [atoms[3], atoms[4]]
      && AtomsHoles(where[2..]) == 1 by { assert where[2..][1..] == where[3..]; }
    assert BindAtoms(where[1..], p) == [atoms[1]] + [atoms[2], atoms[3], atoms[4]]
      && AtomsHoles(where[1..]) == 1 by { assert where[1..][1..] == where[2..]; }
  }

  lemma {:induction false} RetractsMeans(r: Alias, al: Alias, txID: i64, both: Env, db: Db)
    requires r in both && al in both
    ensures var row, d := both[r], both[al];
            AtomsHold(Retracts(r, al, OLit(SInt(txID))), both, db)
            <==> row.fact == d.fact && !row.added && row.tx <= txID
  {
    var atoms, row, d := Retracts(r, al, OLit(SInt(txID))), both[r], both[al];
    assert AtomHolds(atoms[0], both, db) <==> row.fact.e == d.fact.e;
    assert AtomHolds(atoms[1], both, db) <==> row.fact.a == d.fact.a;
    assert AtomHolds(atoms[2], both, db) <==> row.fact.v == d.fact.v;
    assert AtomHolds(atoms[3], both, db) <==> !row.added;
    assert AtomHolds(atoms[4], both, db) <==> row.tx <= txID;
    hide AtomHolds;
    assert forall a :: a in atoms
             <==> a == atoms[0] || a == atoms[1] || a == atoms[2] || a == atoms[3] || a == atoms[4];
  }

  lemma {:induction false} OneTable(r: Alias, inner: Env, db: Db)
    ensures Ranges([From(DatomsLog, r)], inner, db)
            <==> r in inner && inner[r] in db.datoms && forall al :: al in inner ==> al == r
  {
    var from := [From(DatomsLog, r)];
    assert from[0].alias == r;
  }

  lemma {:induction false} NoRetractionMeans(i: int, txID: i64, env: Env, db: Db)
    requires D(i) in env
    ensures FragHolds(BindFrag(NoRetraction(D(i), txID).frag, NoRetraction(D(i), txID).params), env, db)
            <==> !RetractedBy(db.datoms, txID, env[D(i)].fact)
  {
    var d, al, r := env[D(i)], D(i), DR(i);
    var from, atoms := [From(DatomsLog, r)], Retracts(r, al, OLit(SInt(txID)));
    RetractsBinds(r, al, txID);
    hide BindAtoms, Retracts, AtomsHold, Ranges;
    if row :| row in db.datoms && row.fact == d.fact && !row.added && row.tx <= txID {
      var inner: Env := map[r := row];
      RetractsMeans(r, al, txID, env + inner, db);
      OneTable(r, inner, db);
    }
    if inner: Env :| Ranges(from, inner, db) && AtomsHold(atoms, env + inner, db) {
      OneTable(r, inner, db);
      RetractsMeans(r, al, txID, env + inner, db);
    }
  }

  lemma {:induction false} StillValidMeans(i: int, ms: i64, env: Env, db: Db)
    requires D(i) in env
    ensures FragHolds(BindFrag(StillValid(D(i), ms).frag, StillValid(D(i), ms).params), env, db) <==> ms < MAX_INT64
  {
    IntCompare(MAX_INT64, ms);
  }

  lemma {:induction false} ClosedFiltersConcat(tbs: seq<TableBinding>, fs: seq<Filter>, gs: seq<Filter>)
    ensures ClosedFilters(tbs, fs + gs) == ClosedFilters(tbs, fs) + ClosedFilters(tbs, gs)
  {
    hide ClosedFilter;
    if gs == [] {
      assert fs + gs == fs;
    } else {
      assert (fs + gs)[..|fs + gs| - 1] == fs + gs[..|gs| - 1];
      ClosedFiltersConcat(tbs, fs, gs[..|gs| - 1]);
    }
  }

  lemma {:induction false} ClosedRawsConcat(rs: seq<RawFilter>, us: seq<RawFilter>)
    ensures ClosedRaws(rs + us) == ClosedRaws(rs) + ClosedRaws(us)
  {
    hide BindFrag;
    if us == [] {
      assert rs + us == rs;
    } else {
      assert (rs + us)[..|rs + us| - 1] == rs + us[..|us| - 1];
      ClosedRawsConcat(rs, us[..|us| - 1]);
    }
  }

  lemma {:induction false} OneFilter(tbs: seq<TableBinding>, f: Filter, env: Env, db: Db)
    ensures AtomsHold(ClosedFilters(tbs, [f]), env, db) <==> AtomHolds(ClosedFilter(tbs, f), env, db)
  {
    hide ClosedFilter, AtomHolds;
    assert [f][..0] == [];
    assert ClosedFilters(tbs, [f]) == [ClosedFilter(tbs, f)];
  }

  lemma {:induction false} OneRaw(r: RawFilter, env: Env, db: Db)
    ensures FragsHold(ClosedRaws([r]), env, db) <==> FragHolds(BindFrag(r.frag, r.params), env, db)
  {
    hide BindFrag, FragHolds;
    assert [r][..0] == [];
    assert ClosedRaws([r]) == [BindFrag(r.frag, r.params)];
  }

  lemma {:induction false} NoneHold(tbs: seq<TableBinding>, env: Env, db: Db)
    ensures AtomsHold(ClosedFilters(tbs, []), env, db) && FragsHold(ClosedRaws([]), env, db)
  {
  }

  /** At most one filter, present on a condition. */
  lemma {:induction false} OptionalFilter(tbs: seq<TableBinding>, fn: Bytes, op: Op, i: int, col: Column, v: i64,
                                          present: bool, env: Env, db: Db)
    requires Builtin(fn) == Some(op) && 0 <= i < |tbs| && tbs[i].alias in env
    ensures AtomsHold(ClosedFilters(tbs, if present then [ColumnFilter(fn, i, col, VInt(v))] else []), env, db)
            <==> (present ==> Compare(op, ColumnValue(env[tbs[i].alias], col), SInt(v)))
  {
    hide ColumnFilter, Compare, ColumnValue, ClosedFilters, AtomsHold, Builtin;
    NoneHold(tbs, env, db);
    OneFilter(tbs, ColumnFilter(fn, i, col, VInt(v)), env, db);
    ColumnFilterMeans(tbs, fn, op, i, col, v, env, db);
  }

  lemma {:induction false} FiltersAtSplit(tbs: seq<TableBinding>, i: int, view: View, d: Row, env: Env, db: Db)
    requires 0 <= i < |tbs| && tbs[i].alias == D(i) && D(i) in env && env[D(i)] == d
    ensures AtomsHold(ClosedFilters(tbs, FiltersAt(i, view)), env, db) <==>
            && Compare(Eq, ColumnValue(d, ColAdded), SInt(1))
            && (view.txID > 0 ==> Compare(Le, ColumnValue(d, ColTx), SInt(view.txID)))
            && (view.validTime.Some? ==> Compare(Le, ColumnValue(d, ColValidFrom), SInt(view.validTime.value)))
  {
    var ms := if view.validTime.Some? then view.validTime.value else 0;
    var f1 := [ColumnFilter([61], i, ColAdded, VInt(1))];
    var f2 := if view.txID > 0 then [ColumnFilter([60, 61], i, ColTx, VInt(view.txID))] else [];
    var f3 := if view.validTime.Some? then [ColumnFilter([60, 61], i, ColValidFrom, VInt(ms))] else [];
    assert FiltersAt(i, view) == f1 + f2 + f3;
    hide ColumnFilter, ClosedFilters, AtomsHold, Compare, FiltersAt, ColumnValue;
    OptionalFilter(tbs, [61], Eq, i, ColAdded, 1, true, env, db);
    OptionalFilter(tbs, [60, 61], Le, i, ColTx, view.txID, view.txID > 0, env, db);
    OptionalFilter(tbs, [60, 61], Le, i, ColValidFrom, ms, view.validTime.Some?, env, db);
    ClosedFiltersConcat(tbs, f1 + f2, f3);
    ClosedFiltersConcat(tbs, f1, f2);
    AtomsConcat(ClosedFilters(tbs, f1) + ClosedFilters(tbs, f2), ClosedFilters(tbs, f3), env, db);
    AtomsConcat(ClosedFilters(tbs, f1), ClosedFilters(tbs, f2), env, db);
  }

  lemma {:induction false} FiltersAtMean(tbs: seq<TableBinding>, i: int, view: View, env: Env, db: Db)
    requires 0 <= i < |tbs| && tbs[i].alias == D(i) && D(i) in env
    ensures var d := env[D(i)];
            AtomsHold(ClosedFilters(tbs, FiltersAt(i, view)), env, db) <==>
            d.added && (view.txID > 0 ==> d.tx <= view.txID)
              && (view.validTime.Some? ==> d.validFrom <= view.validTime.value)
  {
    var d := env[D(i)];
    FiltersAtSplit(tbs, i, view, d, env, db);
    RowTests(d, view);
    hide *;
  }

  lemma {:induction false} RowTests(d: Row, view: View)
    ensures Compare(Eq, ColumnValue(d, ColAdded), SInt(1)) <==> d.added
    ensures Compare(Le, ColumnValue(d, ColTx), SInt(view.txID)) <==> d.tx <= view.txID
    ensures view.validTime.Some?
            ==> (Compare(Le, ColumnValue(d, ColValidFrom), SInt(view.validTime.value))
                 <==> d.validFrom <= view.validTime.value)
  {
  }

  lemma {:induction false} RawsAtMean(i: int, view: View, env: Env, db: Db)
    requires D(i) in env
    ensures FragsHold(ClosedRaws(RawsAt(D(i), view)), env, db) <==>
            && (view.txID > 0 ==> !RetractedBy(db.datoms, view.txID, env[D(i)].fact))
            && (view.validTime.Some? ==> view.validTime.value < MAX_INT64)
  {
    var ms := if view.validTime.Some? then view.validTime.value else 0;
    var r1 := if view.txID > 0 then [NoRetraction(D(i), view.txID)] else [];
    var r2 := if view.validTime.Some? then [StillValid(D(i), ms)] else [];
    assert RawsAt(D(i), view) == r1 + r2;
    hide NoRetraction, StillValid, ClosedRaws, FragsHold, RetractedBy, RawsAt, FragHolds, BindFrag;
    NoneHold([], env, db);
    OneRaw(NoRetraction(D(i), view.txID), env, db);
    OneRaw(StillValid(D(i), ms), env, db);
    NoRetractionMeans(i, view.txID, env, db);
    StillValidMeans(i, ms, env, db);
    ClosedRawsConcat(r1, r2);
    FragsConcat(ClosedRaws(r1), ClosedRaws(r2), env, db);
  }

  ghost predicate TablesPlain(tbs: seq<TableBinding>) {
    forall i :: 0 <= i < |tbs| ==> tbs[i].alias == D(i) && tbs[i].table == CurrentDatoms
  }

  ghost predicate RowsShown(n: nat, view: View, env: Env, db: Db) {
    forall i :: 0 <= i < n ==> D(i) in env && RowShown(db.datoms, view, env[D(i)])
  }

  /** The conditions added for the first n tables. */
  lemma {:induction false} AddedMean(tbs: seq<TableBinding>, n: nat, view: View, env: Env, db: Db)
    requires n <= |tbs| && TablesPlain(tbs) && forall i :: 0 <= i < n ==> D(i) in env
    ensures AtomsHold(ClosedFilters(tbs, AddedFilters(n, view)), env, db)
            && FragsHold(ClosedRaws(AddedRaws(tbs[..n], view)), env, db)
            <==> RowsShown(n, view, env, db)
  {
    hide ClosedFilters, ClosedRaws, FragsHold, AtomsHold, FiltersAt, RawsAt;
    if n == 0 {
      NoneHold(tbs, env, db);
    } else {
      var m := n - 1;
      assert tbs[..n][..m] == tbs[..m] && tbs[..n][m] == tbs[m];
      hide RetractedBy;
      AddedMean(tbs, m, view, env, db);
      FiltersAtMean(tbs, m, view, env, db);
      RawsAtMean(m, view, env, db);
      ClosedFiltersConcat(tbs, AddedFilters(m, view), FiltersAt(m, view));
      AtomsConcat(ClosedFilters(tbs, AddedFilters(m, view)), ClosedFilters(tbs, FiltersAt(m, view)), env, db);
      ClosedRawsConcat(AddedRaws(tbs[..m], view), RawsAt(D(m), view));
      FragsConcat(ClosedRaws(AddedRaws(tbs[..m], view)), ClosedRaws(RawsAt(D(m), view)), env, db);
      assert RowShown(db.datoms, view, env[D(m)]) <==>
        AtomsHold(ClosedFilters(tbs, FiltersAt(m, view)), env, db)
          && FragsHold(ClosedRaws(RawsAt(D(m), view)), env, db);
      hide RowShown;
      ShownSnoc(m, view, env, db);
    }
  }

  lemma {:induction false} ShownSnoc(m: nat, view: View, env: Env, db: Db)
    requires D(m) in env
    ensures RowsShown(m + 1, view, env, db) <==> RowsShown(m, view, env, db) && RowShown(db.datoms, view, env[D(m)])
  {
    hide RowShown;
  }

  // ---------------------------------------------------------------------
  // The view theorem
  // ---------------------------------------------------------------------

  lemma {:induction false} PlainRanges(tbs: seq<TableBinding>, table: Table, env: Env, db: Db)
    requires forall i :: 0 <= i < |tbs| ==> tbs[i].alias == D(i) && tbs[i].table == table
    ensures Ranges(Froms(tbs), env, db) <==>
            && (forall al :: al in env ==> al.D? && 0 <= al.i < |tbs|)
            && (forall i :: 0 <= i < |tbs| ==> D(i) in env && env[D(i)] in db.Rows(table))
  {
    var from := Froms(tbs);
    assert forall i :: 0 <= i < |tbs| ==> from[i] == From(table, D(i));
    hide Froms;
    if Ranges(from, env, db) {
      forall al | al in env ensures al.D? && 0 <= al.i < |tbs| {
        var i :| 0 <= i < |from| && from[i].alias == al;
      }
      forall i | 0 <= i < |tbs| ensures D(i) in env && env[D(i)] in db.Rows(table) {
        assert from[i].alias in env;
      }
    }
    if forall al :: al in env ==> al.D? && 0 <= al.i < |tbs| {
      forall al | al in env ensures exists i :: 0 <= i < |from| && from[i].alias == al {
        assert from[al.i].alias == al;
      }
    }
  }

  lemma {:induction false} RangesShown(tbs: seq<TableBinding>, view: View, env: Env, db: Db)
    requires TablesPlain(tbs)
    ensures Ranges(Froms(tbs), env, db.(current := Shown(db.datoms, view))) <==>
            Ranges(Froms(OnLog(tbs)), env, db) && RowsShown(|tbs|, view, env, db)
  {
    PlainRanges(tbs, CurrentDatoms, env, db.(current := Shown(db.datoms, view)));
    PlainRanges(OnLog(tbs), DatomsLog, env, db);
    hide RowShown, Ranges, Froms, OnLog;
  }

  lemma {:induction false} LogShape(tbs: seq<TableBinding>)
    ensures SameShape(OnLog(tbs), tbs) && ClosedTables(OnLog(tbs)) == ClosedTables(tbs)
  {
    SameTables(OnLog(tbs), tbs);
  }

  ghost predicate NoNegation(aq: Algebraic) {
    aq.nots == [] && aq.raws == [] && TablesPlain(aq.body.tables)
  }

  lemma {:induction false} AsOfBody(b: Body, view: View)
    ensures var n, tbs := |b.tables|, b.tables;
            ClosedBody(b.(tables := OnLog(tbs), filters := b.filters + AddedFilters(n, view)),
                       JoinAtoms(OnLog(tbs), b.joins))
            == ClosedBody(b, JoinAtoms(tbs, b.joins)) + ClosedFilters(tbs, AddedFilters(n, view))
  {
    var tbs, added := b.tables, AddedFilters(|b.tables|, view);
    LogShape(tbs);
    hide OnLog, JoinAtoms, ClosedFilters, ClosedTables, AddedFilters, SameShape;
    SameJoins(OnLog(tbs), tbs, b.joins);
    SameClosedFilters(OnLog(tbs), tbs, b.filters + added);
    ClosedFiltersConcat(tbs, b.filters, added);
  }

  lemma {:induction false} AsOfClosedWhere(aq: Algebraic, view: View)
    requires NoNegation(aq)
    ensures var b := aq.body; var n, old_ := |b.tables|, ClosedBody(b, JoinAtoms(b.tables, b.joins));
            && ClosedWhere(ApplyAsOf(aq, view))
               == Lift(old_ + ClosedFilters(b.tables, AddedFilters(n, view))) + ClosedRaws(AddedRaws(b.tables, view))
            && ClosedWhere(aq) == Lift(old_)
  {
    AsOfBody(aq.body, view);
    NoNots(OnLog(aq.body.tables));
    NoNots(aq.body.tables);
    NoRaws();
    hide OnLog, JoinAtoms, ClosedFilters, ClosedTables, AddedFilters, AddedRaws, ClosedBody, ClosedNots, ClosedRaws;
    assert aq.raws + AddedRaws(aq.body.tables, view) == AddedRaws(aq.body.tables, view);
  }

  lemma {:induction false} AsOfWhere(aq: Algebraic, view: View, env: Env, db: Db)
    requires NoNegation(aq) && forall i :: 0 <= i < |aq.body.tables| ==> D(i) in env
    ensures FragsHold(ClosedWhere(ApplyAsOf(aq, view)), env, db) <==>
            FragsHold(ClosedWhere(aq), env, db.(current := Shown(db.datoms, view)))
              && RowsShown(|aq.body.tables|, view, env, db)
  {
    var tbs, n := aq.body.tables, |aq.body.tables|;
    var db' := db.(current := Shown(db.datoms, view));
    var old_ := ClosedBody(aq.body, JoinAtoms(tbs, aq.body.joins));
    hide ClosedWhere, ClosedFilters, ClosedRaws, FragsHold, AtomsHold, JoinAtoms, ClosedBody, AddedFilters, AddedRaws,
      Shown, RowsShown, ApplyAsOf, Lift;
    assert tbs[..n] == tbs;
    AsOfClosedWhere(aq, view);
    AddedMean(tbs, n, view, env, db);
    AsOfParts(old_, ClosedFilters(tbs, AddedFilters(n, view)), ClosedRaws(AddedRaws(tbs, view)), env, db);
    LiftHolds(old_, env, db');
    SameUdf(old_, env, db, db');
  }

  lemma {:induction false} NoNots(tbs: seq<TableBinding>)
    ensures ClosedNots(tbs, []) == []
  {
  }

  lemma {:induction false} NoRaws()
    ensures ClosedRaws([]) == []
  {
  }

  lemma {:induction false} AsOfParts(old_: seq<Atom>, added: seq<Atom>, raws: seq<Frag>, env: Env, db: Db)
    ensures FragsHold(Lift(old_ + added) + raws, env, db)
            <==> AtomsHold(old_, env, db) && AtomsHold(added, env, db) && FragsHold(raws, env, db)
  {
    hide FragsHold, AtomsHold, Lift;
    FragsConcat(Lift(old_ + added), raws, env, db);
    LiftHolds(old_ + added, env, db);
    AtomsConcat(old_, added, env, db);
  }

  /** Conditions without subqueries do not look at the tables. */
  lemma {:induction false} SameUdf(atoms: seq<Atom>, env: Env, db: Db, db': Db)
    requires db.udf == db'.udf
    ensures AtomsHold(atoms, env, db) <==> AtomsHold(atoms, env, db')
  {
    forall a ensures AtomHolds(a, env, db) <==> AtomHolds(a, env, db') {
    }
  }

  lemma {:induction false} AddedAligned(tbs: seq<TableBinding>, view: View)
    ensures RawsAligned(AddedRaws(tbs, view))
  {
    if tbs != [] {
      var al := tbs[|tbs| - 1].alias;
      AddedAligned(tbs[..|tbs| - 1], view);
      RetractsBinds(RetractionAlias(al), al, view.txID);
      hide AddedRaws, Retracts;
      forall r | r in RawsAt(al, view) ensures FragHoles(r.frag) == |r.params| {
      }
      assert AddedRaws(tbs, view) == AddedRaws(tbs[..|tbs| - 1], view) + RawsAt(al, view) by { AddedSnoc(tbs, view); }
    }
  }

  lemma {:induction false} AddedSnoc(tbs: seq<TableBinding>, view: View)
    requires tbs != []
    ensures AddedRaws(tbs, view) == AddedRaws(tbs[..|tbs| - 1], view) + RawsAt(tbs[|tbs| - 1].alias, view)
  {
  }

  lemma {:induction false} AsOfReturns(aq: Algebraic, view: View, db: Db, env: Env, row: seq<SqlVal>, out: seq<DVal>)
    requires NoNegation(aq)
    ensures ClosedReturns(ApplyAsOf(aq, view), db, env, row, out)
            <==> ClosedReturns(aq, db.(current := Shown(db.datoms, view)), env, row, out)
  {
    var tbs := aq.body.tables;
    var db' := db.(current := Shown(db.datoms, view));
    assert ApplyAsOf(aq, view).body.tables == OnLog(tbs) && ApplyAsOf(aq, view).find == aq.find;
    hide FragsHold, ClosedWhere, OperandValues, Reads, SelectCols, OnLog, Shown, RowsShown, SameShape, ApplyAsOf,
      Ranges, Froms;
    RangesShown(tbs, view, env, db);
    LogShape(tbs);
    SameSelect(OnLog(tbs), tbs, aq.find);
    if Ranges(Froms(OnLog(tbs)), env, db) {
      AliasesRange(tbs, env, db);
      AsOfWhere(aq, view, env, db);
    }
  }

  lemma {:induction false} AliasesRange(tbs: seq<TableBinding>, env: Env, db: Db)
    requires TablesPlain(tbs) && Ranges(Froms(OnLog(tbs)), env, db)
    ensures forall i :: 0 <= i < |tbs| ==> D(i) in env
  {
    PlainRanges(OnLog(tbs), DatomsLog, env, db);
    hide Ranges;
  }

  /** An AsOf query over the log returns what the same query returns over the rows that
      the view shows, taken as current_datoms. */
  lemma {:induction false} AsOfIsQueryOverShown(aq: Algebraic, view: View, db: Db, out: seq<DVal>)
    requires NoNegation(aq)
    ensures QueryReturns(ApplyAsOf(aq, view), db, out)
            <==> QueryReturns(aq, db.(current := Shown(db.datoms, view)), out)
  {
    var aq', db' := ApplyAsOf(aq, view), db.(current := Shown(db.datoms, view));
    AddedAligned(aq.body.tables, view);
    hide ClosedReturns, Shown, AddedRaws, AddedFilters;
    ReturnsAreClosed(aq', db, out);
    ReturnsAreClosed(aq, db', out);
    forall env, row ensures ClosedReturns(aq', db, env, row, out) <==> ClosedReturns(aq, db', env, row, out) {
      AsOfReturns(aq, view, db, env, row, out);
    }
    hide QueryReturns;
  }
}
