/** (not ...) clauses. buildNotExists (query/translate.go:257-332) tells a correlation
    join from an inner one by comparing the outer table index with the number of inner
    tables, and compares the untyped columns. */
module Negation {
  import opened Prelude
  import opened Values
  import opened Store
  import opened Sql
  import opened Datalog
  import opened Algebra
  import opened Places
  import opened Placeholders
  import opened Compiler

  // ---------------------------------------------------------------------
  // Comparing untyped columns
  // ---------------------------------------------------------------------

  /** A datom whose float, if it is one, is not NaN and not negative zero. */
  ghost predicate Plainest(s: Schema, r: Row) {
    Clean(s, r) && (r.vtype == TFloat && IsZero(DecodeFloat(r.fact.v)) ==> DecodeFloat(r.fact.v) == 0)
  }

  /** Two places whose untyped columns hold comparable cells. */
  predicate SameStorage(p: Pattern, col: Column, q: Pattern, col': Column, s: Schema) {
    if col == ColV then col' == ColV && PatType(p, s).Some? && PatType(p, s) == PatType(q, s) else col' != ColV
  }

  lemma {:induction false} SameBlobSameValue(r: Row, r': Row, t: ValueType)
    requires WellFormed(r.fact.v, t) && WellFormed(r'.fact.v, t) && r.vtype == t && r'.vtype == t
    requires t == TFloat ==> !IsNaN(DecodeFloat(r.fact.v)) && !IsNaN(DecodeFloat(r'.fact.v))
    requires t == TFloat && IsZero(DecodeFloat(r.fact.v)) ==> DecodeFloat(r.fact.v) == 0
    requires t == TFloat && IsZero(DecodeFloat(r'.fact.v)) ==> DecodeFloat(r'.fact.v) == 0
    ensures r.fact.v == r'.fact.v <==> Stored(Some(t), r) == Stored(Some(t), r')
  {
    if TypedColumnOf(t).Some? {
      TypedCell(r, t);
      TypedEqualityExactly(t, r.fact.v, r'.fact.v);
      if t == TFloat {
        FloatRoundTripBytes(r.fact.v);
        FloatRoundTripBytes(r'.fact.v);
      }
      hide TypedCellsOf, DecodeFloat, WellFormed, IsZero, IsNaN;
    }
  }

  lemma {:induction false} RawEqual(p: Pattern, col: Column, r: Row, q: Pattern, col': Column, r': Row, s: Schema)
    requires s.Valid() && Plainest(s, r) && Plainest(s, r') && OfAttr(p, s, r) && OfAttr(q, s, r')
    requires Position(col) && Position(col') && SameStorage(p, col, q, col', s)
    ensures Compare(Eq, ColumnValue(r, col), ColumnValue(r', col')) <==> CellAt(p, s, col, r) == CellAt(q, s, col', r')
  {
    CompareEq(ColumnValue(r, col), ColumnValue(r', col'));
    if col == ColV {
      SameBlobSameValue(r, r', PatType(p, s).value);
      hide Stored, Compare, DecodeFloat, IsZero, IsNaN;
    }
  }

  // ---------------------------------------------------------------------
  // Bodies the translation is right for
  // ---------------------------------------------------------------------

  /** Each expression of a body comes after patterns that bind its variables. */
  ghost predicate ExprsAfter(body: seq<Simple>) {
    forall n, el :: 0 <= n < |body| && body[n].SExpr? && el in body[n].x.args && el.EVar?
      ==> el.x in VarsOf(PatternsOf(body[..n]))
  }

  /** All places of a variable within the body are stored alike. */
  ghost predicate InnerStorage(qs: seq<Pattern>, s: Schema) {
    forall x, i, col, i', col' ::
      StandsAt(qs, x, i, col) && StandsAt(qs, x, i', col') ==> SameStorage(qs[i], col, qs[i'], col', s)
  }

  /** Every shared variable first stands, in the outer query, in a table whose index no
      inner table has, and is stored there as in the body. */
  ghost predicate Correlates(ps: seq<Pattern>, qs: seq<Pattern>, s: Schema) {
    forall x :: x in VarsOf(ps) && x in VarsOf(qs) ==> SharedOK(ps, qs, s, x)
  }

  ghost predicate SharedOK(ps: seq<Pattern>, qs: seq<Pattern>, s: Schema, x: Var) {
    var o, i := LocsFrom(ps, x), LocsFrom(qs, x);
    && o != [] && i != [] && |qs| <= o[0].table < |ps| && 0 <= i[0].table < |qs|
    && SameStorage(ps[o[0].table], o[0].col, qs[i[0].table], i[0].col, s)
  }

  ghost predicate NotOK(ps: seq<Pattern>, body: seq<Simple>, s: Schema) {
    var qs := PatternsOf(body);
    && qs != []
    && BodyOK(qs, ExprsOf(body), s) && ExprsAfter(body)
    && InnerStorage(qs, s) && Correlates(ps, qs, s)
  }

  // ---------------------------------------------------------------------
  // Expressions, resolved as the body is read
  // ---------------------------------------------------------------------

  lemma {:induction false} LocsPrefix(ps: seq<Pattern>, k: nat, x: Var)
    requires k <= |ps|
    ensures LocsFrom(ps[..k], x) <= LocsFrom(ps, x)
    decreases |ps|
  {
    if k < |ps| {
      LocsPrefix(ps[..|ps| - 1], k, x);
      assert ps[..|ps| - 1][..k] == ps[..k];
    } else {
      assert ps[..k] == ps;
    }
  }

  /** A type recorded while part of the body had been read fits the whole body too. */
  lemma {:induction false} PrefixTypeFits(qs: seq<Pattern>, k: nat, s: Schema, parent: map<Var, ValueType>, x: Var)
    requires k <= |qs| && OneKind(qs, s) && x in VarsOf(qs[..k]) && !VarKind(qs, s, x, KRaw)
    ensures LocsFrom(qs[..k], x) != [] && LocsFrom(qs, x) != [] && LocsFrom(qs[..k], x)[0] == LocsFrom(qs, x)[0]
    ensures TypeFits(qs, s, LocsFrom(qs, x)[0], TypeOf(TypesFrom(qs[..k], s, parent), x))
  {
    hide VarsOf, LocsFrom, TypesFrom, KindAt;
    var pre := qs[..k];
    assert forall i, col :: StandsAt(pre, x, i, col) ==> StandsAt(qs, x, i, col) && pre[i] == qs[i];
    PlacesOfVar(pre, x);
    LocsPrefix(qs, k, x);
    PrefixOneKind(qs, k, s);
    RecordedTypeFits(pre, s, parent, x);
  }

  lemma {:induction false} PrefixOneKind(qs: seq<Pattern>, k: nat, s: Schema)
    requires k <= |qs| && OneKind(qs, s)
    ensures OneKind(qs[..k], s)
  {
    hide KindAt;
    var pre := qs[..k];
    forall x, i, col | StandsAt(pre, x, i, col) ensures StandsAt(qs, x, i, col) && pre[i] == qs[i] {
    }
  }

  lemma {:induction false} InnerExprMeans(body: seq<Simple>, n: nat, s: Schema, parent: map<Var, ValueType>,
                                          rows: seq<Row>, env: Env, db: Db)
    requires var qs := PatternsOf(body);
             && s.Valid() && |rows| == |qs| && (forall r :: r in rows ==> Clean(s, r)) && Sees(env, rows)
                && AllOfAttr(qs, s, rows)
             && OneKind(qs, s) && n < |body| && body[n].SExpr? && ExprOK(qs, s, body[n].x) && ExprsAfter(body)
    ensures var qs, pre := PatternsOf(body), PatternsOf(body[..n]);
            AtomHolds(ClosedFilter(TablesFor(qs, s), ResolvedFilter(pre, TypesFrom(pre, s, parent), {}, body[n].x)),
                      env, db)
            <==> ExprHolds(body[n].x, AssignmentOf(qs, s, rows), db.udf)
  {
    hide Clean, AllOfAttr, Sees, LocsFrom, OneKind, AssignmentOf, TypesFrom, VarsOf, ArgsMean, TypeFits, Schema.Valid,
      VarKind, TablesFor, PatternsOf;
    var qs, pre, x := PatternsOf(body), PatternsOf(body[..n]), body[n].x;
    PatternsPrefix(body, n);
    assert pre == qs[..|pre|];
    var types := TypesFrom(pre, s, parent);
    forall el | el in x.args ensures ArgFits(qs, s, types, el) && SameFirst(pre, qs, el) {
      if el.EVar? {
        PrefixTypeFits(qs, |pre|, s, parent, el.x);
      }
    }
    ArgsAllMean(qs, s, rows, env, types, pre, x);
    FilterMeans(TablesFor(qs, s), ResolvedFilter(pre, types, {}, x), x, env, db, AssignmentOf(qs, s, rows));
  }

  /** The expressions of the first n clauses. */
  lemma {:induction false} InnerExprsMean(body: seq<Simple>, n: nat, s: Schema, parent: map<Var, ValueType>,
                                          rows: seq<Row>, env: Env, db: Db)
    requires var qs := PatternsOf(body);
             && s.Valid() && |rows| == |qs| && (forall r :: r in rows ==> Clean(s, r)) && Sees(env, rows)
                && AllOfAttr(qs, s, rows)
             && OneKind(qs, s) && n <= |body| && ExprsAfter(body) && forall x :: x in ExprsOf(body) ==> ExprOK(qs, s, x)
    ensures var qs := PatternsOf(body);
            AtomsHold(ClosedFilters(TablesFor(qs, s), InnerFilters(body[..n], s, parent)), env, db)
            <==> forall x :: x in ExprsOf(body[..n]) ==> ExprHolds(x, AssignmentOf(qs, s, rows), db.udf)
  {
    hide Clean, AllOfAttr, Sees, OneKind, AssignmentOf, TypesFrom, ExprOK, ExprHolds, ExprsAfter, AtomsHold,
      AtomHolds, ClosedFilter, ResolvedFilter, Schema.Valid, TablesFor, PatternsOf;
    var tbs := TablesFor(PatternsOf(body), s);
    if n == 0 {
      NoAtoms(env, db);
    } else {
      var b, m := body[..n], n - 1;
      assert b[..m] == body[..m] && b[m] == body[m];
      InnerExprsMean(body, m, s, parent, rows, env, db);
      assert ExprsOf(b) == ExprsOf(body[..m]) + if body[m].SExpr? then [body[m].x] else [];
      if body[m].SExpr? {
        assert forall x :: x in ExprsOf(b) <==> x in ExprsOf(body[..m]) || x == body[m].x;
        ExprInBody(body, m);
        InnerExprMeans(body, m, s, parent, rows, env, db);
        var pre := PatternsOf(body[..m]);
        var f := ResolvedFilter(pre, TypesFrom(pre, s, parent), {}, body[m].x);
        var fs := InnerFilters(body[..m], s, parent);
        assert InnerFilters(b, s, parent) == fs + [f];
        assert (fs + [f])[..|fs|] == fs;
        AtomsConcat(ClosedFilters(tbs, fs), [ClosedFilter(tbs, f)], env, db);
        OneAtomHolds(ClosedFilter(tbs, f), env, db);
      } else {
        assert InnerFilters(b, s, parent) == InnerFilters(body[..m], s, parent);
      }
    }
  }

  lemma {:induction false} OneAtomHolds(a: Atom, env: Env, db: Db)
    ensures AtomsHold([a], env, db) <==> AtomHolds(a, env, db)
  {
    assert a in [a];
  }

  lemma {:induction false} ExprInBody(body: seq<Simple>, m: nat)
    requires m < |body| && body[m].SExpr?
    ensures body[m].x in ExprsOf(body)
    decreases |body|
  {
    if m < |body| - 1 {
      ExprInBody(body[..|body| - 1], m);
    }
  }

  // ---------------------------------------------------------------------
  // Joins of a body
  // ---------------------------------------------------------------------

  /** What the two sides of an inner join compare. */
  lemma {:induction false} InnerStarMeans(qs: seq<Pattern>, s: Schema, rows: seq<Row>, outer: seq<TableBinding>,
                                          env: Env, db: Db, x: Var, k: int)
    requires s.Valid() && |rows| == |qs| && (forall r :: r in rows ==> Plainest(s, r)) && Sees(env, rows)
             && AllOfAttr(qs, s, rows)
    requires InnerStorage(qs, s) && 1 <= k < |LocsFrom(qs, x)|
    ensures var locs := LocsFrom(qs, x);
            && StandsAt(qs, x, locs[k].table, locs[k].col)
            && (AtomHolds(InnerJoinAtom(outer, TablesFor(qs, s), StarJoin(x, locs, k)), env, db)
                <==> CellIn(qs, s, rows, locs[k]) == FirstCell(qs, s, rows, x))
  {
    hide Plainest, CellAt, Compare, LocsFrom, ColumnValue, Schema.Valid, SameStorage;
    var locs := LocsFrom(qs, x);
    assert locs[0] in locs && locs[k] in locs;
    PlaceIff(qs, x, locs[0]);
    PlaceIff(qs, x, locs[k]);
    var i, j := locs[0].table, locs[k].table;
    assert StandsAt(qs, x, i, locs[0].col) && StandsAt(qs, x, j, locs[k].col);
    assert rows[i] in rows && rows[j] in rows;
    RawEqual(qs[i], locs[0].col, rows[i], qs[j], locs[k].col, rows[j], s);
  }

  lemma {:induction false} CorrelationMeans(ps: seq<Pattern>, rows: seq<Row>, qs: seq<Pattern>, inner: seq<Row>,
                                            s: Schema, env: Env, db: Db, x: Var)
    requires s.Valid() && |rows| == |ps| && (forall r :: r in rows ==> Plainest(s, r)) && AllOfAttr(ps, s, rows)
    requires |inner| == |qs| && (forall r :: r in inner ==> Plainest(s, r)) && AllOfAttr(qs, s, inner)
             && Sees(env, inner)
    requires SharedOK(ps, qs, s, x)
    requires var i := LocsFrom(ps, x)[0].table; D(i) in env && env[D(i)] == rows[i]
    ensures var o, i := LocsFrom(ps, x)[0], LocsFrom(qs, x)[0];
            AtomHolds(InnerJoinAtom(TablesFor(ps, s), TablesFor(qs, s), Join(x, o.table, o.col, i.table, i.col)), env,
                      db)
            <==> FirstCell(ps, s, rows, x) == FirstCell(qs, s, inner, x)
  {
    hide Plainest, CellAt, Compare, LocsFrom, ColumnValue, Schema.Valid, SameStorage;
    var o, i := LocsFrom(ps, x)[0], LocsFrom(qs, x)[0];
    PlacesOfVar(ps, x);
    PlacesOfVar(qs, x);
    assert rows[o.table] in rows && inner[i.table] in inner;
    RawEqual(ps[o.table], o.col, rows[o.table], qs[i.table], i.col, inner[i.table], s);
  }

  ghost predicate SharesAgree(ps: seq<Pattern>, rows: seq<Row>, qs: seq<Pattern>, inner: seq<Row>, s: Schema)
    requires |rows| == |ps| && |inner| == |qs|
  {
    forall x :: x in VarsOf(ps) && x in VarsOf(qs) ==> FirstCell(ps, s, rows, x) == FirstCell(qs, s, inner, x)
  }

  /** The tables of a body see their own rows; further out, the outer query's. */
  ghost predicate Nested(env: Env, rows: seq<Row>, inner: seq<Row>) {
    Sees(env, inner) && forall i :: |inner| <= i < |rows| ==> D(i) in env && env[D(i)] == rows[i]
  }

  ghost predicate InnerSetting(ps: seq<Pattern>, rows: seq<Row>, qs: seq<Pattern>, inner: seq<Row>, s: Schema,
                               env: Env) {
    && s.Valid() && Nested(env, rows, inner)
    && |rows| == |ps| && (forall r :: r in rows ==> Plainest(s, r)) && AllOfAttr(ps, s, rows)
    && |inner| == |qs| && (forall r :: r in inner ==> Plainest(s, r)) && AllOfAttr(qs, s, inner)
    && InnerStorage(qs, s) && Correlates(ps, qs, s)
  }

  lemma {:induction false} InnerJoinsMean(ps: seq<Pattern>, rows: seq<Row>, qs: seq<Pattern>, inner: seq<Row>,
                                          s: Schema, env: Env, db: Db, joins: seq<Join>)
    requires InnerSetting(ps, rows, qs, inner, s, env)
    requires forall j :: j in joins <==> IsStarJoin(qs, j) || IsCorrelation(ps, {}, qs, j)
    ensures AtomsHold(InnerJoinAtoms(TablesFor(ps, s), TablesFor(qs, s), joins), env, db)
            <==> RowsJoin(qs, s, inner) && SharesAgree(ps, rows, qs, inner, s)
  {
    hide Plainest, CellAt, AllOfAttr, Sees, LocsFrom, InnerStorage, AtomHolds, InnerJoinAtom, FirstCell, Schema.Valid,
      StarJoin, VarsOf, SharedOK, TablesFor;
    var outerT, innerT := TablesFor(ps, s), TablesFor(qs, s);
    var atoms := InnerJoinAtoms(outerT, innerT, joins);
    if AtomsHold(atoms, env, db) {
      forall x, i, col | StandsAt(qs, x, i, col)
        ensures CellIn(qs, s, inner, Loc(i, col)) == FirstCell(qs, s, inner, x) {
        PlaceIff(qs, x, Loc(i, col));
        var locs := LocsFrom(qs, x);
        var k :| 0 <= k < |locs| && locs[k] == Loc(i, col);
        if k == 0 {
          FirstIsFirst(qs, s, inner, x);
        } else {
          InnerStarMeans(qs, s, inner, outerT, env, db, x, k);
          StarJoinIs(qs, x, k);
          assert InnerJoinAtom(outerT, innerT, StarJoin(x, locs, k)) in atoms;
        }
      }
      forall x | x in VarsOf(ps) && x in VarsOf(qs) ensures FirstCell(ps, s, rows, x) == FirstCell(qs, s, inner, x) {
        SharedIsSeen(ps, rows, qs, inner, s, env, x);
        PlacesOfVar(ps, x);
        PlacesOfVar(qs, x);
        CorrelationMeans(ps, rows, qs, inner, s, env, db, x);
        var o, i := LocsFrom(ps, x)[0], LocsFrom(qs, x)[0];
        var j := Join(x, o.table, o.col, i.table, i.col);
        assert IsCorrelation(ps, {}, qs, j);
        assert InnerJoinAtom(outerT, innerT, j) in atoms;
      }
    }
    if RowsJoin(qs, s, inner) && SharesAgree(ps, rows, qs, inner, s) {
      forall a | a in atoms ensures AtomHolds(a, env, db) {
        var j :| j in joins && a == InnerJoinAtom(outerT, innerT, j);
        var locs := LocsFrom(qs, j.x);
        if IsStarJoin(qs, j) {
          var k :| 1 <= k < |locs| && j == StarJoin(j.x, locs, k);
          InnerStarMeans(qs, s, inner, outerT, env, db, j.x, k);
          assert Loc(locs[k].table, locs[k].col) == locs[k];
        } else {
          PlacesOfVar(ps, j.x);
          PlacesOfVar(qs, j.x);
          SharedIsSeen(ps, rows, qs, inner, s, env, j.x);
          CorrelationMeans(ps, rows, qs, inner, s, env, db, j.x);
        }
      }
    }
  }

  lemma {:induction false} SharedIsSeen(ps: seq<Pattern>, rows: seq<Row>, qs: seq<Pattern>, inner: seq<Row>,
                                        s: Schema, env: Env, x: Var)
    requires InnerSetting(ps, rows, qs, inner, s, env) && x in VarsOf(ps) && x in VarsOf(qs)
    ensures SharedOK(ps, qs, s, x) && Sees(env, inner)
    ensures var i := LocsFrom(ps, x)[0].table; D(i) in env && env[D(i)] == rows[i]
  {
    hide Plainest, VarsOf, LocsFrom, InnerStorage, AllOfAttr;
  }
}
