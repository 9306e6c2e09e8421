/** The main theorem about the compiler. */
module Correctness {
  import opened Prelude
  import opened Values
  import opened Store
  import opened Sql
  import opened Datalog
  import opened Algebra
  import opened Places
  import opened Placeholders
  import opened Compiler
  import opened Negation

  // ---------------------------------------------------------------------
  // A whole body
  // ---------------------------------------------------------------------

  ghost predicate AllMatch(ps: seq<Pattern>, s: Schema, rows: seq<Row>)
    requires |rows| == |ps|
  {
    forall i :: 0 <= i < |ps| ==> ConstsMatch(ps[i], s, rows[i])
  }

  lemma {:induction false} InnerBodyMeans(ps: seq<Pattern>, rows: seq<Row>, body: seq<Simple>, inner: seq<Row>,
                                          s: Schema, env: Env, db: Db, b: Body)
    requires var qs := PatternsOf(body);
      && SchemaOK(s) && NotOK(ps, body, s) && IsInner(ps, {}, s, body, b) && Nested(env, rows, inner)
      && |rows| == |ps| && (forall r :: r in rows ==> Plainest(s, r)) && AllOfAttr(ps, s, rows)
      && |inner| == |qs| && (forall r :: r in inner ==> Plainest(s, r))
    ensures var qs := PatternsOf(body);
      AtomsHold(ClosedBody(b, InnerJoinAtoms(TablesFor(ps, s), b.tables, b.joins)), env, db) <==>
      && AllMatch(qs, s, inner) && RowsJoin(qs, s, inner) && SharesAgree(ps, rows, qs, inner, s)
      && (forall x :: x in ExprsOf(body) ==> ExprHolds(x, AssignmentOf(qs, s, inner), db.udf))
  {
    var qs, outerT := PatternsOf(body), TablesFor(ps, s);
    assert forall r :: r in inner ==> Clean(s, r);
    hide PatternOK, Clean, Plainest, OneKind, ExprOK, ExprHolds, AtomsHold, Sees, ConstsMatch, RowsJoin, AssignmentOf,
      TypesFrom, TablesFor, Schema.Valid;
    hide IsStarJoin, IsCorrelation, SharesAgree, AllOfAttr, InnerStorage, Correlates, ExprsAfter, PatternsOf, ExprsOf,
      InnerFilters;
    var joins := InnerJoinAtoms(outerT, b.tables, b.joins);
    AtomsConcat(ClosedTables(b.tables), joins, env, db);
    AtomsConcat(ClosedTables(b.tables) + joins, ClosedFilters(b.tables, b.filters), env, db);
    TablesMean(qs, s, inner, env, db);
    if AllMatch(qs, s, inner) {
      MatchingRowsOfAttr(qs, s, inner);
      InnerJoinsMean(ps, rows, qs, inner, s, env, db, b.joins);
      InnerExprsMean(body, |body|, s, TypesFrom(ps, s, map[]), inner, env, db);
      assert body[..|body|] == body;
    }
  }

  // ---------------------------------------------------------------------
  // NOT EXISTS
  // ---------------------------------------------------------------------

  lemma {:induction false} NestedEnv(rows: seq<Row>, inner: seq<Row>)
    ensures Nested(EnvOf(rows) + EnvOf(inner), rows, inner)
  {
  }

  lemma {:induction false} AgreeIsShares(ps: seq<Pattern>, rows: seq<Row>, qs: seq<Pattern>, inner: seq<Row>, s: Schema)
    requires |rows| == |ps| && |inner| == |qs|
    ensures Agree(AssignmentOf(ps, s, rows), AssignmentOf(qs, s, inner)) <==> SharesAgree(ps, rows, qs, inner, s)
  {
    hide FirstCell, VarsOf;
    if Agree(AssignmentOf(ps, s, rows), AssignmentOf(qs, s, inner)) {
      forall x | x in VarsOf(ps) && x in VarsOf(qs) ensures FirstCell(ps, s, rows, x) == FirstCell(qs, s, inner, x) {
        assert x in AssignmentOf(ps, s, rows) && x in AssignmentOf(qs, s, inner);
      }
    }
  }

  ghost predicate RowsPlainest(s: Schema, rel: set<Row>) {
    forall r :: r in rel ==> Plainest(s, r)
  }

  ghost predicate NotSetting(ps: seq<Pattern>, rows: seq<Row>, body: seq<Simple>, s: Schema, db: Db, b: Body) {
    && SchemaOK(s) && NotOK(ps, body, s) && IsInner(ps, {}, s, body, b) && RowsPlainest(s, db.current)
    && |rows| == |ps| && (forall r :: r in rows ==> Plainest(s, r)) && AllOfAttr(ps, s, rows)
  }

  function NotAtoms(ps: seq<Pattern>, s: Schema, b: Body): seq<Atom> {
    ClosedBody(b, InnerJoinAtoms(TablesFor(ps, s), b.tables, b.joins))
  }

  lemma {:induction false} NotSound(ps: seq<Pattern>, rows: seq<Row>, body: seq<Simple>, s: Schema, db: Db, b: Body,
                                    inner: Env)
    requires NotSetting(ps, rows, body, s, db, b)
    requires Ranges(Froms(b.tables), inner, db) && AtomsHold(NotAtoms(ps, s, b), EnvOf(rows) + inner, db)
    ensures !NotHolds(body, s, AssignmentOf(ps, s, rows), db.current, db.udf)
  {
    var qs := PatternsOf(body);
    hide NotOK, Plainest, AtomsHold, ClosedBody, ExprHolds, PatternHolds, AllOfAttr, RowsJoin, SharesAgree, Nested,
      Ranges, EnvOf, ConstsMatch, AssignmentOf, Schema.Valid, VarsOf, PatternsOf, ExprsOf, InnerFilters, Froms,
      TablesFor, InnerJoinAtoms, Agree, IsStarJoin, IsCorrelation;
    var irows := RangesGiveRows(qs, s, inner, db);
    NestedEnv(rows, irows);
    PlainestRows(s, irows, db.current);
    InnerBodyMeans(ps, rows, body, irows, s, EnvOf(rows) + inner, db, b);
    RowsGiveAssignment(qs, s, irows, db.current);
    AgreeIsShares(ps, rows, qs, irows, s);
    assert Agree(AssignmentOf(ps, s, rows), AssignmentOf(qs, s, irows));
  }

  lemma {:induction false} NotComplete(ps: seq<Pattern>, rows: seq<Row>, body: seq<Simple>, s: Schema, db: Db,
                                       b: Body) returns (inner: Env)
    requires NotSetting(ps, rows, body, s, db, b)
    requires !NotHolds(body, s, AssignmentOf(ps, s, rows), db.current, db.udf)
    ensures Ranges(Froms(b.tables), inner, db) && AtomsHold(NotAtoms(ps, s, b), EnvOf(rows) + inner, db)
  {
    var qs, xs, sigma := PatternsOf(body), ExprsOf(body), AssignmentOf(ps, s, rows);
    hide NotOK, Plainest, AtomsHold, ClosedBody, ExprHolds, PatternHolds, AllOfAttr, RowsJoin, SharesAgree, Nested,
      Ranges, EnvOf, ConstsMatch, AssignmentOf, Schema.Valid, VarsOf, PatternsOf, ExprsOf, InnerFilters, Froms,
      TablesFor, InnerJoinAtoms, Agree, IsStarJoin, IsCorrelation;
    var tau: Assignment :| tau.Keys == VarsOf(qs) && Agree(sigma, tau) && BodyHolds(qs, xs, s, tau, db.current, db.udf);
    var irows := AssignmentGivesRows(qs, s, tau, db.current);
    RowsGiveRanges(qs, s, irows, db);
    NestedEnv(rows, irows);
    PlainestRows(s, irows, db.current);
    InnerBodyMeans(ps, rows, body, irows, s, EnvOf(rows) + EnvOf(irows), db, b);
    AgreeIsShares(ps, rows, qs, irows, s);
    inner := EnvOf(irows);
  }

  /** NOT EXISTS removes exactly the assignments with which the body can be satisfied. */
  lemma {:induction false} NotMeans(ps: seq<Pattern>, rows: seq<Row>, body: seq<Simple>, s: Schema, db: Db, b: Body)
    requires NotSetting(ps, rows, body, s, db, b)
    ensures FragHolds(ClosedNot(TablesFor(ps, s), b), EnvOf(rows), db)
            <==> NotHolds(body, s, AssignmentOf(ps, s, rows), db.current, db.udf)
  {
    assert |rows| == |ps|;
    hide NotSetting, NotHolds, AtomsHold, Ranges, EnvOf, AssignmentOf, ClosedBody, Froms, TablesFor;
    var atoms := NotAtoms(ps, s, b);
    if inner: Env :| Ranges(Froms(b.tables), inner, db) && AtomsHold(atoms, EnvOf(rows) + inner, db) {
      NotSound(ps, rows, body, s, db, b, inner);
    } else if !NotHolds(body, s, AssignmentOf(ps, s, rows), db.current, db.udf) {
      var inner := NotComplete(ps, rows, body, s, db, b);
    }
  }

  lemma {:induction false} PlainestRows(s: Schema, rows: seq<Row>, rel: set<Row>)
    requires RowsPlainest(s, rel) && forall i :: 0 <= i < |rows| ==> rows[i] in rel
    ensures forall r :: r in rows ==> Plainest(s, r)
  {
  }

  // ---------------------------------------------------------------------
  // The query
  // ---------------------------------------------------------------------

  /** A query the compiler handles: patterns and expressions over variables of one kind
      each, results bound by patterns, negations that correlate; no :in variables. */
  ghost predicate WellTyped(q: Query, s: Schema) {
    var body := SimplesOf(q.where);
    var ps := PatternsOf(body);
    && q.ins == [] && ps != []
    && BodyOK(ps, ExprsOf(body), s)
    && (forall x :: x in q.find ==> x in VarsOf(ps))
    && (forall n :: n in NotsOf(q.where) ==> NotOK(ps, n, s))
  }

  /** The datoms were written by transact and hold no NaN; where negations compare
      BLOBs, no negative zero either. */
  ghost predicate DataOK(q: Query, s: Schema, rel: set<Row>) {
    RelationOK(s, rel) && (NotsOf(q.where) != [] ==> RowsPlainest(s, rel))
  }

  lemma {:induction false} LiftHolds(atoms: seq<Atom>, env: Env, db: Db)
    ensures FragsHold(Lift(atoms), env, db) <==> AtomsHold(atoms, env, db)
  {
    var fs := Lift(atoms);
    if FragsHold(fs, env, db) {
      forall a | a in atoms ensures AtomHolds(a, env, db) {
        var i :| 0 <= i < |atoms| && atoms[i] == a;
        assert fs[i] in fs && FragHolds(fs[i], env, db);
      }
    }
    if AtomsHold(atoms, env, db) {
      forall f | f in fs ensures FragHolds(f, env, db) {
        var i :| 0 <= i < |fs| && fs[i] == f;
        assert atoms[i] in atoms;
      }
    }
  }

  lemma {:induction false} FragsConcat(a: seq<Frag>, b: seq<Frag>, env: Env, db: Db)
    ensures FragsHold(a + b, env, db) <==> FragsHold(a, env, db) && FragsHold(b, env, db)
  {
    assert forall x :: x in a + b <==> x in a || x in b;
  }

  lemma {:induction false} ResultsMean(ps: seq<Pattern>, s: Schema, rows: seq<Row>, env: Env, find: seq<Var>,
                                       fs: seq<FindMapping>, row: seq<SqlVal>, out: seq<DVal>)
    requires s.Valid() && |rows| == |ps| && (forall r :: r in rows ==> Clean(s, r)) && Sees(env, rows)
             && AllOfAttr(ps, s, rows)
    requires OneKind(ps, s) && (forall x :: x in find ==> x in VarsOf(ps))
    requires |fs| == |find| && forall i ::
                                 0 <= i < |find| ==> fs[i] == ResolvedFind(ps, TypesFrom(ps, s, map[]), {}, find[i])
    requires row == OperandValues(SelectCols(TablesFor(ps, s), fs), env)
    ensures Reads(fs, row, out) <==> Projects(find, AssignmentOf(ps, s, rows), out)
    decreases |fs|
  {
    hide Clean, AllOfAttr, Sees, OneKind, VarsOf, TypesFrom, TablesFor, OperandValue, Schema.Valid, FirstCell,
      ReadFind, ResolvedFind, PlaceOf;
    if fs != [] {
      var n := |fs| - 1;
      var tbs, f := TablesFor(ps, s), fs[n];
      var head, cols := OperandValues(SelectCols(tbs, fs[..n]), env), OperandValues(FindCols(tbs, f), env);
      assert row == head + cols;
      assert find[n] in find && forall x :: x in find[..n] ==> x in find;
      FindMeans(ps, s, rows, env, find[n]);
      assert row[..|row| - |cols|] == head && row[|row| - |cols|..] == cols;
      if out != [] {
        ResultsMean(ps, s, rows, env, find[..n], fs[..n], head, out[..|out| - 1]);
        var sigma := AssignmentOf(ps, s, rows);
        if Projects(find[..n], sigma, out[..|out| - 1]) && out[|out| - 1] == sigma[find[n]] {
          forall i | 0 <= i < |find| ensures find[i] in sigma && out[i] == sigma[find[i]] {
            assert i < n ==> find[..n][i] == find[i] && out[..|out| - 1][i] == out[i];
          }
        }
        if Projects(find, sigma, out) {
          forall i | 0 <= i < n ensures find[..n][i] in sigma && out[..|out| - 1][i] == sigma[find[..n][i]] {
            assert find[..n][i] == find[i] && out[..|out| - 1][i] == out[i];
          }
        }
      }
    }
  }

  lemma {:induction false} NotsCorrespond(tbs: seq<TableBinding>, bs: seq<Body>, nots: seq<seq<Simple>>, s: Schema,
                                          sigma: Assignment, env: Env, db: Db)
    requires |bs| == |nots|
    requires forall i :: 0 <= i < |nots|
               ==> (FragHolds(ClosedNot(tbs, bs[i]), env, db) <==> NotHolds(nots[i], s, sigma, db.current, db.udf))
    ensures FragsHold(ClosedNots(tbs, bs), env, db)
            <==> forall n :: n in nots ==> NotHolds(n, s, sigma, db.current, db.udf)
  {
    hide FragHolds, NotHolds, ClosedNot;
    var fs := ClosedNots(tbs, bs);
    if FragsHold(fs, env, db) {
      forall n | n in nots ensures NotHolds(n, s, sigma, db.current, db.udf) {
        var i :| 0 <= i < |nots| && nots[i] == n;
        assert bs[i] in bs && ClosedNot(tbs, bs[i]) in fs;
      }
    }
    if forall n :: n in nots ==> NotHolds(n, s, sigma, db.current, db.udf) {
      forall f | f in fs ensures FragHolds(f, env, db) {
        var b :| b in bs && f == ClosedNot(tbs, b);
        var i :| 0 <= i < |bs| && bs[i] == b;
        assert nots[i] in nots;
      }
    }
  }

  lemma {:induction false} CleanRows(s: Schema, rows: seq<Row>, rel: set<Row>)
    requires RelationOK(s, rel) && forall i :: 0 <= i < |rows| ==> rows[i] in rel
    ensures forall r :: r in rows ==> Clean(s, r)
  {
  }

  lemma {:induction false} RowsSatisfy(q: Query, s: Schema, db: Db, rows: seq<Row>)
    requires var ps := PatternsOf(SimplesOf(q.where));
      && |rows| == |ps| && (forall i :: 0 <= i < |ps| ==> rows[i] in db.current)
      && AllMatch(ps, s, rows) && RowsJoin(ps, s, rows)
      && (forall x :: x in ExprsOf(SimplesOf(q.where)) ==> ExprHolds(x, AssignmentOf(ps, s, rows), db.udf))
      && (forall n :: n in NotsOf(q.where) ==> NotHolds(n, s, AssignmentOf(ps, s, rows), db.current, db.udf))
    ensures Satisfies(q, s, AssignmentOf(PatternsOf(SimplesOf(q.where)), s, rows), db.current, db.udf)
  {
    var ps := PatternsOf(SimplesOf(q.where));
    hide ConstsMatch, PatternHolds, ExprHolds, NotHolds, RowsJoin, AssignmentOf, VarsOf, PatternsOf, ExprsOf,
      SimplesOf, NotsOf;
    RowsGiveAssignment(ps, s, rows, db.current);
  }
}
