/** Time travel end to end: from transactions, through the log and the AsOf rewriting of
    a compiled query, back to what the same query returned in the past. */
module EndToEnd {
  import opened Prelude
  import opened Values
  import opened Store
  import opened Transact
  import opened Invariants
  import opened Runs
  import TimeTravel
  import opened Sql
  import opened Datalog
  import opened Algebra
  import opened Places
  import opened Placeholders
  import opened Compiler
  import opened Correctness
  import opened Inputs
  import opened Substitution
  import opened AsOf

  // ---------------------------------------------------------------------
  // Queries that do not mention time
  // ---------------------------------------------------------------------

  predicate Untimed(col: Column) {
    col != ColTx && col != ColAdded && col != ColValidFrom
  }

  predicate UntimedTable(tb: TableBinding) {
    tb.txBound == VNil && !tb.pattern.tx.EVar?
  }

  ghost predicate UntimedFilter(f: Filter) {
    forall a :: a in f.args && a.FVar? ==> Untimed(a.col)
  }

  ghost predicate UntimedBody(b: Body) {
    && (forall tb :: tb in b.tables ==> UntimedTable(tb))
    && (forall j :: j in b.joins ==> Untimed(j.leftCol) && Untimed(j.rightCol))
    && (forall f :: f in b.filters ==> UntimedFilter(f))
  }

  /** A query of patterns and expressions that does not look at transaction ids. */
  ghost predicate Timeless(aq: Algebraic) {
    NoNegation(aq) && UntimedBody(aq.body) && forall m :: m in aq.find ==> Untimed(m.col)
  }

  ghost predicate NoTx(ps: seq<Pattern>) {
    forall p :: p in ps ==> !p.tx.EVar? && !Bound(p.tx)
  }

  lemma {:induction false} UntimedPlaces(ps: seq<Pattern>, x: Var, l: Loc)
    requires NoTx(ps) && l in LocsFrom(ps, x)
    ensures Untimed(l.col)
  {
    PlaceIff(ps, x, l);
    assert ps[l.table] in ps;
  }

  lemma {:induction false} UntimedArgs(ps: seq<Pattern>, types: map<Var, ValueType>, ins: set<Var>, x: Expr)
    requires NoTx(ps)
    ensures UntimedFilter(ResolvedFilter(ps, types, ins, x))
  {
    hide LocsFrom, NoTx;
    var args := ResolvedArgs(ps, types, ins, x.args);
    forall i | 0 <= i < |args| ensures args[i].FVar? ==> Untimed(args[i].col) {
      var locs := LocsFrom(ps, VarName(x.args[i]));
      if locs != [] {
        UntimedPlaces(ps, VarName(x.args[i]), locs[0]);
      }
    }
    assert forall i :: 0 <= i < |args| && Typed(args, InferredType(args))[i].FVar? ==>
                         Typed(args, InferredType(args))[i] == args[i];
  }

  lemma {:induction false} UntimedJoin(ps: seq<Pattern>, j: Join)
    requires NoTx(ps) && IsStarJoin(ps, j)
    ensures Untimed(j.leftCol) && Untimed(j.rightCol)
  {
    hide LocsFrom, NoTx;
    var locs := LocsFrom(ps, j.x);
    var k :| 1 <= k < |locs| && j == StarJoin(j.x, locs, k);
    UntimedPlaces(ps, j.x, locs[0]);
    UntimedPlaces(ps, j.x, locs[k]);
  }

  lemma {:induction false} UntimedBodyOf(ps: seq<Pattern>, xs: seq<Expr>, ins: set<Var>, s: Schema, b: Body)
    requires NoTx(ps) && BodyOf(ps, xs, ins, s, b)
    ensures UntimedBody(b) && TablesPlain(b.tables)
  {
    hide IsStarJoin, UntimedFilter, ResolvedFilter, TypesFrom;
    forall tb | tb in b.tables ensures UntimedTable(tb) {
      var i :| 0 <= i < |ps| && tb == TableFor(i, ps[i], s);
      assert ps[i] in ps;
    }
    hide NoTx, TableFor;
    forall j | j in b.joins ensures Untimed(j.leftCol) && Untimed(j.rightCol) {
      UntimedJoin(ps, j);
    }
    forall f | f in b.filters ensures UntimedFilter(f) {
      var i :| 0 <= i < |b.filters| && f == b.filters[i];
      UntimedArgs(ps, TypesFrom(ps, s, map[]), ins, xs[i]);
    }
    TablesForPlain(ps, s);
  }

  lemma {:induction false} TablesForPlain(ps: seq<Pattern>, s: Schema)
    ensures TablesPlain(TablesFor(ps, s))
  {
  }

  /** The algebraic form of a query that mentions no transaction is timeless. */
  lemma {:induction false} AlgebraIsTimeless(q: Query, s: Schema, aq: Algebraic)
    requires IsAlgebraOf(q, s, aq) && NotsOf(q.where) == [] && NoTx(PatternsOf(SimplesOf(q.where)))
    ensures Timeless(aq)
  {
    var ps, ins := PatternsOf(SimplesOf(q.where)), (set x | x in q.ins);
    var g: Given := map x | x in ins :: VNil;
    assert ins == g.Keys;
    AlgebraParts(q, s, g, aq);
    hide PatternsOf, SimplesOf, ExprsOf, IsStarJoin, TypesFrom, ResolvedFilters, TablesFor, LocsFrom, BodyOf, IsInner;
    UntimedBodyOf(ps, ExprsOf(SimplesOf(q.where)), ins, s, aq.body);
    forall m | m in aq.find ensures Untimed(m.col) {
      var i :| 0 <= i < |aq.find| && m == ResolvedFind(ps, TypesFrom(ps, s, map[]), ins, q.find[i]);
      var locs := LocsFrom(ps, q.find[i]);
      if locs != [] {
        UntimedPlaces(ps, q.find[i], locs[0]);
      }
    }
  }

  lemma {:induction false} UntimedInput(b: Body, x: Var, v: Value)
    requires UntimedBody(b) && TablesPlain(b.tables) && BindInput(b, x, v).Ok?
    ensures UntimedBody(BindInput(b, x, v).value) && TablesPlain(BindInput(b, x, v).value.tables)
  {
    var t := TableWithInput(b.tables, x, 0);
    if t.Some? {
      assert b.tables[t.value] in b.tables;
    } else {
      var i := FilterWithInput(b.filters, x, 0).value;
      var f := b.filters[i];
      var j := ArgWithInput(f.args, x, 0).value;
      assert f in b.filters;
      var f' := BindInput(b, x, v).value.filters[i];
      assert f'.args == f.args[j := f'.args[j]] && f'.args[j].FConst?;
      assert forall a :: a in f'.args && a.FVar? ==> a in f.args;
    }
  }

  lemma {:induction false} UntimedInputs(b: Body, xs: seq<Var>, vs: seq<Value>)
    requires |xs| <= |vs| && UntimedBody(b) && TablesPlain(b.tables) && BindInputs(b, xs, vs).Ok?
    ensures UntimedBody(BindInputs(b, xs, vs).value) && TablesPlain(BindInputs(b, xs, vs).value.tables)
    decreases |xs|
  {
    hide UntimedBody, TablesPlain, BindInput;
    if xs != [] {
      UntimedInputs(b, xs[..|xs| - 1], vs);
      UntimedInput(BindInputs(b, xs[..|xs| - 1], vs).value, xs[|xs| - 1], vs[|xs| - 1]);
    }
  }

  /** Binding inputs, of whatever use, keeps a query timeless. */
  lemma {:induction false} BindingKeepsTimeless(aq: Algebraic, xs: seq<Var>, vs: seq<Value>)
    requires Timeless(aq) && BindAll(aq, xs, vs).Ok?
    ensures Timeless(BindAll(aq, xs, vs).value)
  {
    hide UntimedBody, TablesPlain, BindInputs;
    UntimedInputs(aq.body, xs, vs);
  }

  // ---------------------------------------------------------------------
  // Rows that differ in their times only
  // ---------------------------------------------------------------------

  predicate Alike(r: Row, r': Row) {
    r.fact == r'.fact && r.vtype == r'.vtype && r.cells == r'.cells
  }

  /** Every row of the one has a row like it in the other. */
  predicate Covers(rel: set<Row>, rel': set<Row>) {
    forall r :: r in rel ==> exists r' :: r' in rel' && Alike(r, r')
  }

  ghost predicate EnvAlike(env: Env, env': Env) {
    env.Keys == env'.Keys && forall al :: al in env ==> Alike(env[al], env'[al])
  }

  predicate UntimedOperand(o: Operand) {
    match o
    case OCol(_, c) => Untimed(c)
    case OCoalesce(_, c, _) => Untimed(c)
    case _ => true
  }

  ghost predicate UntimedAtom(a: Atom) {
    match a
    case ACmp(_, l, r) => UntimedOperand(l) && UntimedOperand(r)
    case AUdf(_, args) => forall o :: o in args ==> UntimedOperand(o)
  }

  lemma {:induction false} AlikeOperand(o: Operand, env: Env, env': Env)
    requires UntimedOperand(o) && EnvAlike(env, env')
    ensures OperandValue(o, env) == OperandValue(o, env')
  {
  }

  lemma {:induction false} AlikeOperands(os: seq<Operand>, env: Env, env': Env)
    requires (forall o :: o in os ==> UntimedOperand(o)) && EnvAlike(env, env')
    ensures OperandValues(os, env) == OperandValues(os, env')
  {
    hide UntimedOperand, EnvAlike, OperandValue;
    forall i | 0 <= i < |os| ensures OperandValue(os[i], env) == OperandValue(os[i], env') {
      AlikeOperand(os[i], env, env');
    }
  }

  lemma {:induction false} AlikeAtom(a: Atom, env: Env, env': Env, db: Db, db': Db)
    requires UntimedAtom(a) && EnvAlike(env, env') && db.udf == db'.udf
    ensures AtomHolds(a, env, db) <==> AtomHolds(a, env', db')
  {
    hide UntimedOperand, EnvAlike, OperandValue, Compare;
    match a
    case ACmp(_, l, r) =>
      AlikeOperand(l, env, env');
      AlikeOperand(r, env, env');
    case AUdf(_, args) => AlikeOperands(args, env, env');
  }

  lemma {:induction false} UntimedReadCol(col: Column, t: Option<ValueType>)
    requires Untimed(col)
    ensures Untimed(ReadCol(col, t))
  {
  }

  lemma {:induction false} UntimedTableAtoms(tb: TableBinding, a: Atom)
    requires UntimedTable(tb) && a in ClosedTable(tb)
    ensures UntimedAtom(a)
  {
    UntimedReadCol(ColV, tb.valueType);
    hide ReadCol;
  }

  lemma {:induction false} UntimedTables(tbs: seq<TableBinding>, a: Atom)
    requires (forall tb :: tb in tbs ==> UntimedTable(tb)) && a in ClosedTables(tbs)
    ensures UntimedAtom(a)
  {
    hide UntimedAtom, ClosedTable, UntimedTable;
    var n := |tbs| - 1;
    if a in ClosedTable(tbs[n]) {
      UntimedTableAtoms(tbs[n], a);
    } else {
      UntimedTables(tbs[..n], a);
    }
  }

  lemma {:induction false} UntimedJoins(tbs: seq<TableBinding>, js: seq<Join>, a: Atom)
    requires (forall j :: j in js ==> Untimed(j.leftCol) && Untimed(j.rightCol)) && a in JoinAtoms(tbs, js)
    ensures UntimedAtom(a)
  {
    var j :| j in js && a == JoinAtom(tbs, j);
    UntimedReadCol(j.leftCol, ValueTypeOf(tbs, j.leftTable));
    UntimedReadCol(j.rightCol, ValueTypeOf(tbs, j.rightTable));
    hide ReadCol, Untimed;
  }

  lemma {:induction false} UntimedFilters(tbs: seq<TableBinding>, fs: seq<Filter>, a: Atom)
    requires (forall f :: f in fs ==> UntimedFilter(f)) && a in ClosedFilters(tbs, fs)
    ensures UntimedAtom(a)
  {
    var f :| f in fs && a == ClosedFilter(tbs, f);
    var os := ClosedArgs(tbs, f.args);
    forall i | 0 <= i < |os| ensures UntimedOperand(os[i]) {
      assert f.args[i] in f.args;
      if f.args[i].FVar? {
        UntimedReadCol(f.args[i].col, f.args[i].valueType);
      }
      hide ReadCol, Untimed, ClosedArgs;
    }
  }

  lemma {:induction false} UntimedSelect(tbs: seq<TableBinding>, fs: seq<FindMapping>, o: Operand)
    requires (forall m :: m in fs ==> Untimed(m.col)) && o in SelectCols(tbs, fs)
    ensures UntimedOperand(o)
  {
    var n := |fs| - 1;
    UntimedReadCol(fs[n].col, fs[n].valueType);
    hide ReadCol;
    if o !in FindCols(tbs, fs[n]) {
      hide UntimedOperand, FindCols;
      UntimedSelect(tbs, fs[..n], o);
    }
  }

  lemma {:induction false} UntimedBodyAtoms(b: Body, a: Atom)
    requires UntimedBody(b) && a in ClosedBody(b, JoinAtoms(b.tables, b.joins))
    ensures UntimedAtom(a)
  {
    hide UntimedAtom, UntimedFilter, UntimedTable, Untimed;
    if a in ClosedTables(b.tables) {
      UntimedTables(b.tables, a);
    } else if a in JoinAtoms(b.tables, b.joins) {
      UntimedJoins(b.tables, b.joins, a);
    } else {
      UntimedFilters(b.tables, b.filters, a);
    }
  }

  ghost function LikeIn(r: Row, rel: set<Row>): (r': Row)
    requires exists r' :: r' in rel && Alike(r, r')
    ensures r' in rel && Alike(r, r')
  {
    var r' :| r' in rel && Alike(r, r');
    r'
  }

  lemma {:induction false} AlikeEnv(tbs: seq<TableBinding>, env: Env, db: Db, db': Db) returns (env': Env)
    requires TablesPlain(tbs) && Covers(db.current, db'.current) && Ranges(Froms(tbs), env, db)
    ensures Ranges(Froms(tbs), env', db') && EnvAlike(env, env')
  {
    hide Ranges, Froms, Alike;
    PlainRanges(tbs, CurrentDatoms, env, db);
    env' := map al | al in env :: LikeIn(env[al], db'.current);
    PlainRanges(tbs, CurrentDatoms, env', db');
  }

  lemma {:induction false} AlikeWhere(aq: Algebraic, env: Env, env': Env, db: Db, db': Db)
    requires Timeless(aq) && EnvAlike(env, env') && db.udf == db'.udf && FragsHold(ClosedWhere(aq), env, db)
    ensures FragsHold(ClosedWhere(aq), env', db')
  {
    var b := aq.body;
    var atoms := ClosedBody(b, JoinAtoms(b.tables, b.joins));
    assert ClosedWhere(aq) == Lift(atoms) by { AsOfClosedWhere(aq, View(0, None)); }
    hide ClosedWhere, ClosedBody, UntimedBody, FragsHold, JoinAtoms, EnvAlike, UntimedAtom, AtomHolds, Lift;
    LiftHolds(atoms, env, db);
    LiftHolds(atoms, env', db');
    forall a | a in atoms ensures AtomHolds(a, env', db') {
      UntimedBodyAtoms(b, a);
      AlikeAtom(a, env, env', db, db');
    }
  }

  lemma {:induction false} AlikeReturns(aq: Algebraic, db: Db, db': Db, env: Env, row: seq<SqlVal>, out: seq<DVal>)
                                        returns (env': Env)
    requires Timeless(aq) && Covers(db.current, db'.current) && db.udf == db'.udf
             && ClosedReturns(aq, db, env, row, out)
    ensures ClosedReturns(aq, db', env', row, out)
  {
    var cols := SelectCols(aq.body.tables, aq.find);
    hide ClosedWhere, UntimedBody, OperandValues, Reads, SelectCols, Froms, FragsHold, Ranges, EnvAlike, Covers,
      UntimedOperand, TablesPlain, Untimed;
    env' := AlikeEnv(aq.body.tables, env, db, db');
    AlikeWhere(aq, env, env', db, db');
    forall o | o in cols ensures UntimedOperand(o) {
      UntimedSelect(aq.body.tables, aq.find, o);
    }
    AlikeOperands(cols, env, env');
  }

  /** A timeless query cannot tell rows apart that differ in their times only. */
  lemma {:induction false} AlikeAnswers(aq: Algebraic, db: Db, db': Db, out: seq<DVal>)
    requires Timeless(aq) && Covers(db.current, db'.current) && Covers(db'.current, db.current) && db.udf == db'.udf
    ensures QueryReturns(aq, db, out) <==> QueryReturns(aq, db', out)
  {
    assert aq.raws == [];
    ReturnsAreClosed(aq, db, out);
    ReturnsAreClosed(aq, db', out);
    hide Timeless, Covers, ClosedReturns, QueryReturns;
    if env, row :| ClosedReturns(aq, db, env, row, out) {
      var env' := AlikeReturns(aq, db, db', env, row, out);
    }
    if env, row :| ClosedReturns(aq, db', env, row, out) {
      var env' := AlikeReturns(aq, db', db, env, row, out);
    }
  }

  // ---------------------------------------------------------------------
  // What a view shows, and what was current
  // ---------------------------------------------------------------------

  /** The rows of current_datoms as rows of a table. */
  function CurrentRows(c: Current): set<Row> {
    set f | f in c :: Row(f, c[f].vtype, c[f].cells, c[f].tx, true, c[f].validFrom)
  }

  function LogRows(log: seq<Row>): set<Row> {
    set r | r in log
  }

  ghost predicate ShownNow(log: seq<Row>, t: i64, f: Fact) {
    exists d :: d in Shown(LogRows(log), View(t, None)) && d.fact == f
  }

  /** Query's AsOf rule, read off the SQL, is the rule stated on the log. */
  lemma {:induction false} ShownIsVisible(log: seq<Row>, t: i64, f: Fact)
    requires t > 0
    ensures ShownNow(log, t, f) <==> TimeTravel.QueryVisible(log, t, f)
  {
    forall d | d in log ensures d in Shown(LogRows(log), View(t, None)) <==> TimeTravel.QueryShows(log, t, d) {
    }
    hide TimeTravel.QueryShows, Shown;
    if ShownNow(log, t, f) {
      var d :| d in Shown(LogRows(log), View(t, None)) && d.fact == f;
      assert d in log by { ShownInLog(log, t, d); }
    }
  }

  lemma {:induction false} ShownInLog(log: seq<Row>, t: i64, d: Row)
    requires d in Shown(LogRows(log), View(t, None))
    ensures d in log
  {
  }

  /** Every current row is the assertion that put it there. */
  lemma {:induction false} ReplayRows(log: seq<Row>, f: Fact)
    requires f in Replay(log)
    ensures exists r :: r in log && r.fact == f && Replay(log)[f] == CellOf(r)
  {
    var n := |log| - 1;
    if log[n].fact == f {
      assert log[n] in log && Replay(log)[f] == CellOf(log[n]);
    } else {
      ReplayRows(log[..n], f);
      var r :| r in log[..n] && r.fact == f && Replay(log[..n])[f] == CellOf(r);
      assert r in log;
    }
  }

  lemma {:induction false} UptoInLog(log: seq<Row>, t: int, r: Row)
    requires r in TimeTravel.Upto(log, t)
    ensures r in log
  {
    var n := |log| - 1;
    if r in TimeTravel.Upto(log[..n], t) {
      UptoInLog(log[..n], t, r);
    }
  }

  ghost predicate LogAgrees(s: Schema, log: seq<Row>) {
    forall r :: r in log ==> RowAgrees(s, r)
  }

  lemma {:induction false} SnapshotRow(s: Schema, log: seq<Row>, t: int, f: Fact, d: Row)
    requires LogAgrees(s, log) && f in Replay(TimeTravel.Upto(log, t)) && d in log && d.fact == f
    ensures var c := Replay(TimeTravel.Upto(log, t))[f];
            Alike(d, Row(f, c.vtype, c.cells, c.tx, true, c.validFrom))
  {
    hide Replay, TimeTravel.Upto;
    var past := TimeTravel.Upto(log, t);
    ReplayRows(past, f);
    var r :| r in past && r.fact == f && Replay(past)[f] == CellOf(r);
    UptoInLog(log, t, r);
    assert RowAgrees(s, r) && RowAgrees(s, d);
    hide TypedCellsOf, WellFormed;
  }

  /** The rows that a view shows and the rows of a snapshot with the same facts are alike. */
  lemma {:induction false} SameFactsAlike(s: Schema, log: seq<Row>, t: i64, c: Current)
    requires LogAgrees(s, log) && c == Replay(TimeTravel.Upto(log, t))
    requires forall f :: ShownNow(log, t, f) <==> f in c
    ensures Covers(Shown(LogRows(log), View(t, None)), CurrentRows(c))
            && Covers(CurrentRows(c), Shown(LogRows(log), View(t, None)))
  {
    hide LogAgrees, Replay, TimeTravel.Upto, Shown, Alike;
    var shown := Shown(LogRows(log), View(t, None));
    forall d | d in shown ensures exists r' :: r' in CurrentRows(c) && Alike(d, r') {
      var f := d.fact;
      assert ShownNow(log, t, f);
      ShownInLog(log, t, d);
      SnapshotRow(s, log, t, f, d);
      assert Row(f, c[f].vtype, c[f].cells, c[f].tx, true, c[f].validFrom) in CurrentRows(c);
    }
    forall r | r in CurrentRows(c) ensures exists d :: d in shown && Alike(r, d) {
      var f := r.fact;
      assert ShownNow(log, t, f);
      var d :| d in shown && d.fact == f;
      ShownInLog(log, t, d);
      SnapshotRow(s, log, t, f, d);
      AlikeSymmetric(d, r);
    }
  }

  lemma {:induction false} AlikeSymmetric(r: Row, r': Row)
    ensures Alike(r, r') <==> Alike(r', r)
  {
  }

  // ---------------------------------------------------------------------
  // The end-to-end theorem
  // ---------------------------------------------------------------------

  /** The database after a run, and as current_datoms was after transaction t. */
  ghost function Now(acts: seq<Action>, udf: (Bytes, seq<SqlVal>) -> bool): Db {
    Db(CurrentRows(Run(acts).db.tables.current), LogRows(Run(acts).db.tables.datoms), udf)
  }

  ghost function Then(acts: seq<Action>, t: i64, udf: (Bytes, seq<SqlVal>) -> bool): Db {
    Now(acts, udf).(current := CurrentRows(TimeTravel.SnapshotAt(Run(acts).history, t)))
  }

  /** The query on AsOf(t) now returns what it returned right after t. */
  ghost predicate TravelsTo(acts: seq<Action>, udf: (Bytes, seq<SqlVal>) -> bool, aq: Algebraic, t: i64) {
    forall out :: QueryReturns(ApplyAsOf(aq, View(t, None)), Now(acts, udf), out)
      <==> QueryReturns(aq, Then(acts, t, udf), out)
  }

  lemma {:induction false} RunAgrees(acts: seq<Action>)
    requires TimeTravel.InOrder(acts)
    ensures var s := Run(acts);
            && LogAgrees(s.db.schema, s.db.tables.datoms)
            && forall t :: TimeTravel.SnapshotAt(s.history, t) == Replay(TimeTravel.Upto(s.db.tables.datoms, t))
  {
    var s := Run(acts);
    EveryRun(acts);
    TimeTravel.RunRecorded(acts);
    forall t ensures TimeTravel.SnapshotAt(s.history, t) == Replay(TimeTravel.Upto(s.db.tables.datoms, t)) {
      TimeTravel.SnapshotIsReplay(s.history, t);
    }
    hide Run, Chained, AllViews, GapFree, DistinctRows, CardOneHolds, IdentityHolds, RowAgrees, Replay,
      TimeTravel.Upto, TimeTravel.SnapshotAt;
  }

  /** In a run whose commits followed id order, in which no fact was ever asserted again
      after its retraction, a compiled query of patterns and filters that does not look
      at transactions, its inputs bound, returns on AsOf(t), from the log of the whole
      run, exactly what it returned on current_datoms right after transaction t. */
  lemma {:induction false} TimeTravelEndToEnd(acts: seq<Action>, udf: (Bytes, seq<SqlVal>) -> bool, aq: Algebraic,
                                              t: i64)
    requires TimeTravel.InOrder(acts) && !TimeTravel.Revives(Run(acts).db.tables.datoms) && Timeless(aq) && t > 0
    ensures TravelsTo(acts, udf, aq, t)
  {
    var s := Run(acts);
    var log, c := s.db.tables.datoms, TimeTravel.SnapshotAt(s.history, t);
    var now, then_ := Now(acts, udf), Then(acts, t, udf);
    RunAgrees(acts);
    TimeTravel.QueryTimeTravel(acts);
    forall f ensures ShownNow(log, t, f) <==> f in c {
      ShownIsVisible(log, t, f);
    }
    hide Run, TimeTravel.QueryVisible, ShownNow, TimeTravel.SnapshotAt, Replay, TimeTravel.Upto, LogAgrees, Shown,
      CurrentRows, LogRows, Covers, QueryReturns, ApplyAsOf, TimeTravel.InOrder, TimeTravel.Revives;
    SameFactsAlike(s.db.schema, log, t, c);
    var shown := now.(current := Shown(now.datoms, View(t, None)));
    forall out ensures QueryReturns(ApplyAsOf(aq, View(t, None)), now, out) <==> QueryReturns(aq, then_, out) {
      AsOfIsQueryOverShown(aq, View(t, None), now, out);
      AlikeAnswers(aq, shown, then_, out);
    }
  }

  // ---------------------------------------------------------------------
  // The condition is exact
  // ---------------------------------------------------------------------

  /** The compiled form of [:find ?e ?a ?v :where [?e ?a ?v]]. */
  function AllFacts(): Algebraic {
    var e, a, v := [101], [97], [118];
    var p := Pattern(EVar(e), EVar(a), EVar(v), EBlank);
    Algebraic([FindMapping(e, 0, ColE, None), FindMapping(a, 0, ColA, None), FindMapping(v, 0, ColV, None)],
              Body([TableBinding(D(0), CurrentDatoms, 0, None, VNil, VNil, VNil, p)], [], []), [], [])
  }

  function FactOut(r: Row): seq<DVal> {
    [Plain(SInt(r.fact.e)), Plain(SInt(r.fact.a)), Encoded(r.vtype, r.fact.v)]
  }

  lemma {:induction false} AllFactsTimeless()
    ensures Timeless(AllFacts())
  {
  }

  lemma {:induction false} AllFactsWhere()
    ensures ClosedWhere(AllFacts()) == []
  {
    var b := AllFacts().body;
    assert b.tables[..0] == [];
    assert ClosedTable(b.tables[0]) == [];
    assert ClosedTables(b.tables) == [];
  }

  lemma {:induction false} AllFactsSelect()
    ensures SelectCols(AllFacts().body.tables, AllFacts().find)
            == [OCol(D(0), ColE), OCol(D(0), ColA), OCol(D(0), ColV), OCol(D(0), ColVType)]
  {
    var tbs, fs := AllFacts().body.tables, AllFacts().find;
    assert fs[..3] == fs && fs[..2][..1] == fs[..1] && fs[..1][..0] == [];
    assert FindCols(tbs, fs[0]) == [OCol(D(0), ColE)] && FindCols(tbs, fs[1]) == [OCol(D(0), ColA)];
    assert FindCols(tbs, fs[2]) == [OCol(D(0), ColV), OCol(D(0), ColVType)];
    hide FindCols;
    assert SelectCols(tbs, fs[..0]) == [];
    assert SelectCols(tbs, fs[..1]) == [OCol(D(0), ColE)];
    assert SelectCols(tbs, fs[..2]) == [OCol(D(0), ColE), OCol(D(0), ColA)];
  }

  lemma {:induction false} ReadsSnoc(fs: seq<FindMapping>, f: FindMapping, row: seq<SqlVal>, cols: seq<SqlVal>,
                                     out: seq<DVal>)
    requires |cols| == if f.col == ColV then 2 else 1
    ensures Reads(fs + [f], row + cols, out)
            <==> out != [] && Reads(fs, row, out[..|out| - 1]) && out[|out| - 1] == ReadFind(f, cols)
  {
    hide ReadFind;
    var n := |row + cols| - |cols|;
    assert (fs + [f])[..|fs|] == fs && (row + cols)[..n] == row && (row + cols)[n..] == cols;
  }

  lemma {:induction false} AllFactsReads(r: Row, out: seq<DVal>)
    ensures Reads(AllFacts().find, [SInt(r.fact.e), SInt(r.fact.a), SBlob(r.fact.v), SInt(TypeCode(r.vtype))], out)
            <==> out == FactOut(r)
  {
    var fs := AllFacts().find;
    var x, y, z := SInt(r.fact.e), SInt(r.fact.a), [SBlob(r.fact.v), SInt(TypeCode(r.vtype))];
    TypeCodes(r.vtype);
    hide TypeCode, TypeOfCode;
    assert fs == ([] + [fs[0]] + [fs[1]]) + [fs[2]] && [x, y, z[0], z[1]] == [] + [x] + [y] + z;
    ReadsSnoc([] + [fs[0]] + [fs[1]], fs[2], [] + [x] + [y], z, out);
    if out != [] {
      var out2 := out[..|out| - 1];
      ReadsSnoc([] + [fs[0]], fs[1], [] + [x], [y], out2);
      if out2 != [] {
        ReadsSnoc([], fs[0], [], [x], out2[..|out2| - 1]);
      }
    }
    assert out == FactOut(r) ==> out[..2][..1][..0] == [];
  }

  lemma {:induction false} AllFactsRow(db: Db, env: Env, row: seq<SqlVal>, out: seq<DVal>)
    ensures ClosedReturns(AllFacts(), db, env, row, out) <==>
            && env.Keys == {D(0)} && env[D(0)] in db.current && out == FactOut(env[D(0)])
            && row == [SInt(env[D(0)].fact.e), SInt(env[D(0)].fact.a), SBlob(env[D(0)].fact.v),
                       SInt(TypeCode(env[D(0)].vtype))]
  {
    var tbs := AllFacts().body.tables;
    PlainRanges(tbs, CurrentDatoms, env, db);
    AllFactsWhere();
    AllFactsSelect();
    hide Ranges, Froms, ClosedWhere, SelectCols, Reads, TypeCode;
    assert FragsHold([], env, db);
    if Ranges(Froms(tbs), env, db) {
      var r := env[D(0)];
      assert env.Keys == {D(0)};
      assert OperandValues([OCol(D(0), ColE), OCol(D(0), ColA), OCol(D(0), ColV), OCol(D(0), ColVType)], env)
          == [SInt(r.fact.e), SInt(r.fact.a), SBlob(r.fact.v), SInt(TypeCode(r.vtype))];
      AllFactsReads(r, out);
    }
    if env.Keys == {D(0)} {
      assert D(0) in env;
    }
  }

  lemma {:induction false} AllFactsReturn(db: Db, r: Row)
    ensures QueryReturns(AllFacts(), db, FactOut(r))
            <==> exists d :: d in db.current && d.fact == r.fact && d.vtype == r.vtype
  {
    ReturnsAreClosed(AllFacts(), db, FactOut(r));
    hide QueryReturns, ClosedReturns, TypeCode, AllFacts;
    forall env, row ensures ClosedReturns(AllFacts(), db, env, row, FactOut(r))
      ==> exists d :: d in db.current && d.fact == r.fact && d.vtype == r.vtype {
      AllFactsRow(db, env, row, FactOut(r));
    }
    if d :| d in db.current && d.fact == r.fact && d.vtype == r.vtype {
      var env: Env := map[D(0) := d];
      AllFactsRow(db, env, [SInt(d.fact.e), SInt(d.fact.a), SBlob(d.fact.v), SInt(TypeCode(d.vtype))], FactOut(r));
    }
  }

  /** A fact asserted again after a retraction is missing from what AsOf returns. */
  lemma {:induction false} RevivalShows(acts: seq<Action>, udf: (Bytes, seq<SqlVal>) -> bool) returns (t: i64)
    requires TimeTravel.InOrder(acts) && TimeTravel.Revives(Run(acts).db.tables.datoms) && Run(acts).db.nextTx <= TWO63
    ensures t > 0 && !TravelsTo(acts, udf, AllFacts(), t)
  {
    var s := Run(acts);
    var log := s.db.tables.datoms;
    RunAgrees(acts);
    TimeTravel.RunRecorded(acts);
    EveryRun(acts);
    var i: nat, j: nat :| TimeTravel.RevivedAt(log, i, j);
    assert log[j] in log && 1 <= log[j].tx < TWO63;
    t := log[j].tx;
    var f, c := log[j].fact, TimeTravel.SnapshotAt(s.history, t);
    TimeTravel.RevivalHides(log, i, j);
    ShownIsVisible(log, t, f);
    var now, then_ := Now(acts, udf), Then(acts, t, udf);
    var shown := now.(current := Shown(now.datoms, View(t, None)));
    var r := Row(f, c[f].vtype, c[f].cells, c[f].tx, true, c[f].validFrom);
    hide Run, TablesValid, Chained, AllViews, GapFree, TimeTravel.RevivedAt, TimeTravel.QueryVisible,
      TimeTravel.SnapshotAt, Replay, TimeTravel.Upto, LogAgrees, Shown, QueryReturns, ApplyAsOf, AllFacts;
    AllFactsTimeless();
    AsOfIsQueryOverShown(AllFacts(), View(t, None), now, FactOut(r));
    AllFactsReturn(shown, r);
    AllFactsReturn(then_, r);
    assert r in then_.current;
  }

  /** Every timeless query travels to every past transaction exactly when no fact, once
      retracted, was ever asserted again for good. */
  lemma {:induction false} TimeTravelExactly(acts: seq<Action>, udf: (Bytes, seq<SqlVal>) -> bool)
    requires TimeTravel.InOrder(acts) && Run(acts).db.nextTx <= TWO63
    ensures (forall aq, t: i64 :: Timeless(aq) && t > 0 ==> TravelsTo(acts, udf, aq, t))
            <==> !TimeTravel.Revives(Run(acts).db.tables.datoms)
  {
    hide TravelsTo, Timeless, AllFacts, Run, TimeTravel.Revives, TimeTravel.InOrder;
    if TimeTravel.Revives(Run(acts).db.tables.datoms) {
      var t := RevivalShows(acts, udf);
      AllFactsTimeless();
    } else {
      forall aq, t: i64 | Timeless(aq) && t > 0 ensures TravelsTo(acts, udf, aq, t) {
        TimeTravelEndToEnd(acts, udf, aq, t);
      }
    }
  }

  // ---------------------------------------------------------------------
  // AsOfTxTime
  // ---------------------------------------------------------------------

  /** The greatest id among the transactions recorded at or before a time, 0 for none. */
  ghost function AsOfTxTime(times: map<int, int>, t: int): int {
    MaxOr0(set id | id in times && times[id] <= t)
  }

  ghost predicate TimesFollowIds(times: map<int, int>) {
    forall i, j :: i in times && j in times && i < j ==> times[i] <= times[j]
  }

  /** At every time the view holds exactly the transactions recorded by then, exactly
      when transaction times never decrease with ids. */
  lemma {:induction false} AsOfTxTimeExactly(times: map<int, int>)
    requires forall id :: id in times ==> id >= 1
    ensures (forall t, id :: id in times ==> (id <= AsOfTxTime(times, t) <==> times[id] <= t))
            <==> TimesFollowIds(times)
  {
    if TimesFollowIds(times) {
      forall t, id | id in times ensures id <= AsOfTxTime(times, t) <==> times[id] <= t {
        var recorded := set i | i in times && times[i] <= t;
        if times[id] <= t {
          assert id in recorded;
        }
      }
    } else {
      var i, j :| i in times && j in times && i < j && times[j] < times[i];
      var recorded := set k | k in times && times[k] <= times[j];
      assert j in recorded;
      assert i <= AsOfTxTime(times, times[j]) && times[i] > times[j];
    }
  }

  /** The same of the transactions table of any run; and no transaction is found exactly
      when none was recorded by then. */
  lemma {:induction false} AsOfTxTimeOfRun(acts: seq<Action>)
    ensures var times := Run(acts).db.tables.transactions;
            && ((forall t, id :: id in times ==> (id <= AsOfTxTime(times, t) <==> times[id] <= t))
                <==> TimesFollowIds(times))
            && (forall t :: AsOfTxTime(times, t) == 0 <==> forall id :: id in times ==> times[id] > t)
            && (forall t :: AsOfTxTime(times, t) != 0
                  ==> AsOfTxTime(times, t) in times && times[AsOfTxTime(times, t)] <= t)
  {
    var times := Run(acts).db.tables.transactions;
    EveryRun(acts);
    assert forall id :: id in times ==> id >= 1;
    hide Run, SysValid;
    AsOfTxTimeExactly(times);
    forall t
      ensures AsOfTxTime(times, t) == 0 <==> forall id :: id in times ==> times[id] > t
      ensures AsOfTxTime(times, t) != 0 ==> AsOfTxTime(times, t) in times && times[AsOfTxTime(times, t)] <= t
    {
      var recorded := set id | id in times && times[id] <= t;
      if id :| id in times && times[id] <= t {
        assert id in recorded;
      }
    }
  }
}
