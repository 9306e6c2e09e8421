/** What the compiled (not ...) clause asks, for any body (query/translate.go:257-332). Its
    tables hide the outer tables of the same index, so a shared variable whose first outer
    place is in a table that far down is compared inside the body, and otherwise with the
    outer row. */
module Correlation {
  import opened Prelude
  import opened Values
  import opened Store
  import opened Sql
  import opened Datalog
  import opened Algebra
  import opened Places
  import opened Placeholders
  import opened Compiler
  import opened Negation
  import opened Correctness

  // ---------------------------------------------------------------------
  // The clause as compiled
  // ---------------------------------------------------------------------

  /** Equality of two columns as they are stored. */
  predicate RawEq(r: Row, col: Column, r': Row, col': Column) {
    SqlEq(ColumnValue(r, col), ColumnValue(r', col'))
  }

  /** The row that a table index means inside the body. */
  function SeenRow(rows: seq<Row>, inner: seq<Row>, i: int): Row
    requires 0 <= i < |rows|
  {
    if i < |inner| then inner[i] else rows[i]
  }

  ghost predicate PlacesFit(ps: seq<Pattern>, n: nat) {
    n == |ps| && forall x, k :: 0 <= k < |LocsFrom(ps, x)| ==> 0 <= LocsFrom(ps, x)[k].table < n
  }

  /** The places of each variable within the body are equal as stored. */
  ghost predicate RawStars(qs: seq<Pattern>, inner: seq<Row>)
    requires PlacesFit(qs, |inner|)
  {
    forall x, k :: 1 <= k < |LocsFrom(qs, x)| ==> StarEq(qs, inner, x, k)
  }

  ghost predicate StarEq(qs: seq<Pattern>, inner: seq<Row>, x: Var, k: int)
    requires PlacesFit(qs, |inner|) && 1 <= k < |LocsFrom(qs, x)|
  {
    var l, m := LocsFrom(qs, x)[0], LocsFrom(qs, x)[k];
    RawEq(inner[l.table], l.col, inner[m.table], m.col)
  }

  ghost predicate Shared(ps: seq<Pattern>, qs: seq<Pattern>, x: Var) {
    LocsFrom(ps, x) != [] && LocsFrom(qs, x) != []
  }

  /** A shared variable, its outer place looked up where the body looks for it. */
  ghost predicate SeenEq(ps: seq<Pattern>, rows: seq<Row>, qs: seq<Pattern>, inner: seq<Row>, x: Var)
    requires PlacesFit(ps, |rows|) && PlacesFit(qs, |inner|) && Shared(ps, qs, x)
  {
    var o, i := LocsFrom(ps, x)[0], LocsFrom(qs, x)[0];
    RawEq(SeenRow(rows, inner, o.table), o.col, inner[i.table], i.col)
  }

  ghost predicate RawShares(ps: seq<Pattern>, rows: seq<Row>, qs: seq<Pattern>, inner: seq<Row>)
    requires PlacesFit(ps, |rows|) && PlacesFit(qs, |inner|)
  {
    forall x :: Shared(ps, qs, x) ==> SeenEq(ps, rows, qs, inner, x)
  }

  lemma {:induction false} PlacesDoFit(ps: seq<Pattern>)
    ensures PlacesFit(ps, |ps|)
  {
    forall x, k | 0 <= k < |LocsFrom(ps, x)| ensures 0 <= LocsFrom(ps, x)[k].table < |ps| {
      assert LocsFrom(ps, x)[k] in LocsFrom(ps, x);
      PlaceIff(ps, x, LocsFrom(ps, x)[k]);
    }
  }

  lemma {:induction false} StarAtomMeans(ps: seq<Pattern>, qs: seq<Pattern>, inner: seq<Row>, s: Schema, env: Env,
                                         db: Db, x: Var, k: int)
    requires Sees(env, inner) && PlacesFit(qs, |inner|) && 1 <= k < |LocsFrom(qs, x)|
    ensures AtomHolds(InnerJoinAtom(TablesFor(ps, s), TablesFor(qs, s), StarJoin(x, LocsFrom(qs, x), k)), env, db)
            <==> StarEq(qs, inner, x, k)
  {
    hide LocsFrom, Compare, ColumnValue, SqlEq;
    var l, m := LocsFrom(qs, x)[0], LocsFrom(qs, x)[k];
    CompareEq(ColumnValue(inner[l.table], l.col), ColumnValue(inner[m.table], m.col));
  }

  lemma {:induction false} ShareAtomMeans(ps: seq<Pattern>, rows: seq<Row>, qs: seq<Pattern>, inner: seq<Row>,
                                          s: Schema, env: Env, db: Db, x: Var)
    requires Nested(env, rows, inner) && PlacesFit(ps, |rows|) && PlacesFit(qs, |inner|) && Shared(ps, qs, x)
    ensures var o, i := LocsFrom(ps, x)[0], LocsFrom(qs, x)[0];
            var atom := InnerJoinAtom(TablesFor(ps, s), TablesFor(qs, s), Join(x, o.table, o.col, i.table, i.col));
            AtomHolds(atom, env, db) <==> SeenEq(ps, rows, qs, inner, x)
  {
    hide LocsFrom, Compare, ColumnValue, SqlEq;
    var o, i := LocsFrom(ps, x)[0], LocsFrom(qs, x)[0];
    CompareEq(ColumnValue(SeenRow(rows, inner, o.table), o.col), ColumnValue(inner[i.table], i.col));
  }

  lemma {:induction false} JoinsMeanRaw(ps: seq<Pattern>, rows: seq<Row>, qs: seq<Pattern>, inner: seq<Row>,
                                        s: Schema, env: Env, db: Db, joins: seq<Join>)
    requires Nested(env, rows, inner) && PlacesFit(ps, |rows|) && PlacesFit(qs, |inner|)
    requires forall j :: j in joins <==> IsStarJoin(qs, j) || IsCorrelation(ps, {}, qs, j)
    ensures AtomsHold(InnerJoinAtoms(TablesFor(ps, s), TablesFor(qs, s), joins), env, db)
            <==> RawStars(qs, inner) && RawShares(ps, rows, qs, inner)
  {
    var outerT, innerT := TablesFor(ps, s), TablesFor(qs, s);
    var atoms := InnerJoinAtoms(outerT, innerT, joins);
    hide Nested, PlacesFit, LocsFrom, AtomHolds, InnerJoinAtom, StarEq, SeenEq, TablesFor;
    assert Sees(env, inner) by { NestedSees(env, rows, inner); }
    if AtomsHold(atoms, env, db) {
      forall x, k | 1 <= k < |LocsFrom(qs, x)| ensures StarEq(qs, inner, x, k) {
        StarAtomMeans(ps, qs, inner, s, env, db, x, k);
        StarJoinIs(qs, x, k);
        assert InnerJoinAtom(outerT, innerT, StarJoin(x, LocsFrom(qs, x), k)) in atoms;
      }
      forall x | Shared(ps, qs, x) ensures SeenEq(ps, rows, qs, inner, x) {
        ShareAtomMeans(ps, rows, qs, inner, s, env, db, x);
        var o, i := LocsFrom(ps, x)[0], LocsFrom(qs, x)[0];
        var j := Join(x, o.table, o.col, i.table, i.col);
        assert IsCorrelation(ps, {}, qs, j);
        assert InnerJoinAtom(outerT, innerT, j) in atoms;
      }
    }
    if RawStars(qs, inner) && RawShares(ps, rows, qs, inner) {
      forall a | a in atoms ensures AtomHolds(a, env, db) {
        var j :| j in joins && a == InnerJoinAtom(outerT, innerT, j);
        var locs := LocsFrom(qs, j.x);
        if IsStarJoin(qs, j) {
          var k :| 1 <= k < |locs| && j == StarJoin(j.x, locs, k);
          StarAtomMeans(ps, qs, inner, s, env, db, j.x, k);
        } else {
          assert Shared(ps, qs, j.x);
          ShareAtomMeans(ps, rows, qs, inner, s, env, db, j.x);
        }
      }
    }
  }

  lemma {:induction false} NestedSees(env: Env, rows: seq<Row>, inner: seq<Row>)
    requires Nested(env, rows, inner)
    ensures Sees(env, inner)
  {
  }

  /** A body as Algebrize accepts it and as its expressions need it; nothing is asked of
      its shared variables. */
  ghost predicate AnyBody(ps: seq<Pattern>, rows: seq<Row>, body: seq<Simple>, s: Schema, rel: set<Row>, b: Body) {
    && SchemaOK(s) && BodyOK(PatternsOf(body), ExprsOf(body), s) && ExprsAfter(body)
    && IsInner(ps, {}, s, body, b) && |rows| == |ps| && RelationOK(s, rel)
  }

  /** Rows for the body's patterns that satisfy them and the expressions. */
  ghost predicate BodyRows(body: seq<Simple>, s: Schema, db: Db, inner: seq<Row>) {
    var qs := PatternsOf(body);
    && |inner| == |qs| && (forall r :: r in inner ==> r in db.current) && AllMatch(qs, s, inner)
    && (forall x :: x in ExprsOf(body) ==> ExprHolds(x, AssignmentOf(qs, s, inner), db.udf))
  }

  /** Rows that the compiled clause looks for. */
  ghost predicate Excludes(ps: seq<Pattern>, rows: seq<Row>, body: seq<Simple>, s: Schema, db: Db, inner: seq<Row>)
    requires |rows| == |ps|
  {
    var qs := PatternsOf(body);
    PlacesDoFit(ps);
    PlacesDoFit(qs);
    BodyRows(body, s, db, inner) && RawStars(qs, inner) && RawShares(ps, rows, qs, inner)
  }

  lemma {:induction false} AnyBodyParts(ps: seq<Pattern>, rows: seq<Row>, body: seq<Simple>, inner: seq<Row>,
                                        s: Schema, env: Env, db: Db, b: Body)
    requires AnyBody(ps, rows, body, s, db.current, b) && Nested(env, rows, inner)
             && forall r :: r in inner ==> r in db.current
    ensures var qs := PatternsOf(body);
            && SchemaOK(s) && s.Valid() && BodyOK(qs, ExprsOf(body), s) && ExprsAfter(body) && |rows| == |ps|
            && b.tables == TablesFor(qs, s) && b.filters == InnerFilters(body, s, TypesFrom(ps, s, map[]))
            && (forall j :: j in b.joins <==> IsStarJoin(qs, j) || IsCorrelation(ps, {}, qs, j))
            && (forall r :: r in inner ==> Clean(s, r)) && Sees(env, inner) && PlacesFit(ps, |rows|)
               && PlacesFit(qs, |qs|)
  {
    PlacesDoFit(ps);
    PlacesDoFit(PatternsOf(body));
    hide Clean, BodyOK, ExprsAfter, Schema.Valid, PatternsOf, ExprsOf, InnerFilters, TypesFrom, TablesFor, IsStarJoin,
      IsCorrelation, PlacesFit;
  }

  lemma {:induction false} AnyBodyMeans(ps: seq<Pattern>, rows: seq<Row>, body: seq<Simple>, inner: seq<Row>,
                                        s: Schema, env: Env, db: Db, b: Body)
    requires AnyBody(ps, rows, body, s, db.current, b) && Nested(env, rows, inner)
    requires |inner| == |PatternsOf(body)| && forall r :: r in inner ==> r in db.current
    ensures AtomsHold(NotAtoms(ps, s, b), env, db) <==> Excludes(ps, rows, body, s, db, inner)
  {
    var qs, outerT := PatternsOf(body), TablesFor(ps, s);
    hide AnyBody, PatternOK, Clean, OneKind, ExprOK, ExprHolds, AtomsHold, Sees, Nested, ConstsMatch, AssignmentOf,
      TypesFrom, TablesFor, Schema.Valid,
      SchemaOK, IsStarJoin, IsCorrelation, RawStars, RawShares, PlacesFit, AllOfAttr, ExprsAfter, PatternsOf, ExprsOf,
        InnerFilters;
    AnyBodyParts(ps, rows, body, inner, s, env, db, b);
    var joins := InnerJoinAtoms(outerT, b.tables, b.joins);
    AtomsConcat(ClosedTables(b.tables), joins, env, db);
    AtomsConcat(ClosedTables(b.tables) + joins, ClosedFilters(b.tables, b.filters), env, db);
    TablesMean(qs, s, inner, env, db);
    if AllMatch(qs, s, inner) {
      MatchingRowsOfAttr(qs, s, inner);
      JoinsMeanRaw(ps, rows, qs, inner, s, env, db, b.joins);
      InnerExprsMean(body, |body|, s, TypesFrom(ps, s, map[]), inner, env, db);
      assert body[..|body|] == body;
    }
  }

  /** The compiled clause holds of outer rows exactly when no rows satisfy the body with
      its variables compared where buildNotExists looks for them. */
  lemma {:induction false} CompiledNotMeans(ps: seq<Pattern>, rows: seq<Row>, body: seq<Simple>, s: Schema, db: Db,
                                            b: Body)
    requires AnyBody(ps, rows, body, s, db.current, b)
    ensures FragHolds(ClosedNot(TablesFor(ps, s), b), EnvOf(rows), db)
            <==> !exists inner :: Excludes(ps, rows, body, s, db, inner)
  {
    var qs := PatternsOf(body);
    assert |rows| == |ps| && b.tables == TablesFor(qs, s);
    hide AnyBody, Excludes, AtomsHold, ClosedBody, Nested, Ranges, EnvOf, PatternsOf, Froms, TablesFor, InnerJoinAtoms;
    if env: Env :| Ranges(Froms(b.tables), env, db) && AtomsHold(NotAtoms(ps, s, b), EnvOf(rows) + env, db) {
      var inner := RangesGiveRows(qs, s, env, db);
      NestedEnv(rows, inner);
      AnyBodyMeans(ps, rows, body, inner, s, EnvOf(rows) + env, db, b);
    }
    if inner :| Excludes(ps, rows, body, s, db, inner) {
      assert |inner| == |qs| && forall r ::
                                  r in inner ==> r in db.current by { ExcludesRows(ps, rows, body, s, db, inner); }
      RowsGiveRanges(qs, s, inner, db);
      NestedEnv(rows, inner);
      AnyBodyMeans(ps, rows, body, inner, s, EnvOf(rows) + EnvOf(inner), db, b);
    }
  }

  lemma {:induction false} ExcludesRows(ps: seq<Pattern>, rows: seq<Row>, body: seq<Simple>, s: Schema, db: Db,
                                        inner: seq<Row>)
    requires |rows| == |ps| && Excludes(ps, rows, body, s, db, inner)
    ensures |inner| == |PatternsOf(body)| && forall r :: r in inner ==> r in db.current
  {
  }

  // ---------------------------------------------------------------------
  // The clause in Datalog
  // ---------------------------------------------------------------------

  /** Rows that satisfy the body along with the outer rows. */
  ghost predicate Satisfied(ps: seq<Pattern>, rows: seq<Row>, body: seq<Simple>, s: Schema, db: Db, inner: seq<Row>)
    requires |rows| == |ps|
  {
    var qs := PatternsOf(body);
    BodyRows(body, s, db, inner) && RowsJoin(qs, s, inner) && SharesAgree(ps, rows, qs, inner, s)
  }

  lemma {:induction false} DatalogNotMeans(ps: seq<Pattern>, rows: seq<Row>, body: seq<Simple>, s: Schema, db: Db)
    requires |rows| == |ps|
    ensures NotHolds(body, s, AssignmentOf(ps, s, rows), db.current, db.udf)
            <==> !exists inner :: Satisfied(ps, rows, body, s, db, inner)
  {
    var qs, xs, sigma := PatternsOf(body), ExprsOf(body), AssignmentOf(ps, s, rows);
    hide PatternsOf, ExprsOf, VarsOf, AssignmentOf, ExprHolds, PatternHolds, ConstsMatch, RowsJoin, Agree, SharesAgree;
    if inner :| Satisfied(ps, rows, body, s, db, inner) {
      assert RowsMatch(qs, s, inner, db.current);
      RowsGiveAssignment(qs, s, inner, db.current);
      AgreeIsShares(ps, rows, qs, inner, s);
      assert BodyHolds(qs, xs, s, AssignmentOf(qs, s, inner), db.current, db.udf);
    }
    if tau: Assignment :| tau.Keys == VarsOf(qs) && Agree(sigma, tau) && BodyHolds(qs, xs, s, tau, db.current, db.udf) {
      var inner := AssignmentGivesRows(qs, s, tau, db.current);
      AgreeIsShares(ps, rows, qs, inner, s);
      assert forall r :: r in inner ==> r in db.current;
      assert Satisfied(ps, rows, body, s, db, inner);
    }
  }

  /** For any body: the compiled clause is right about outer rows exactly when the rows it
      looks for exist just when rows exist that satisfy the body along with them. */
  lemma {:induction false} NegationExactly(ps: seq<Pattern>, rows: seq<Row>, body: seq<Simple>, s: Schema, db: Db,
                                           b: Body)
    requires AnyBody(ps, rows, body, s, db.current, b)
    ensures (FragHolds(ClosedNot(TablesFor(ps, s), b), EnvOf(rows), db)
             <==> NotHolds(body, s, AssignmentOf(ps, s, rows), db.current, db.udf))
            <==> ((exists inner :: Excludes(ps, rows, body, s, db, inner))
                  <==> (exists inner :: Satisfied(ps, rows, body, s, db, inner)))
  {
    assert |rows| == |ps|;
    hide AnyBody, Excludes, Satisfied, FragHolds, NotHolds, ClosedNot;
    CompiledNotMeans(ps, rows, body, s, db, b);
    DatalogNotMeans(ps, rows, body, s, db);
  }

  // ---------------------------------------------------------------------
  // Variables compared inside, and variables compared outside
  // ---------------------------------------------------------------------

  /** The first outer place of a shared variable is in a table that the body hides. */
  ghost predicate Hidden(ps: seq<Pattern>, qs: seq<Pattern>, x: Var) {
    Shared(ps, qs, x) && LocsFrom(ps, x)[0].table < |qs|
  }

  /** Places of one variable are stored alike, within the body and, for those compared
      with the outer row, between it and the outer query; values are plain. */
  ghost predicate StoredAlike(ps: seq<Pattern>, rows: seq<Row>, qs: seq<Pattern>, s: Schema, rel: set<Row>) {
    && s.Valid() && InnerStorage(qs, s) && RowsPlainest(s, rel)
    && |rows| == |ps| && (forall r :: r in rows ==> Plainest(s, r)) && AllOfAttr(ps, s, rows)
    && forall x :: Shared(ps, qs, x) && !Hidden(ps, qs, x) ==> OutsideAlike(ps, qs, s, x)
  }

  ghost predicate OutsideAlike(ps: seq<Pattern>, qs: seq<Pattern>, s: Schema, x: Var)
    requires Shared(ps, qs, x)
  {
    var o, i := LocsFrom(ps, x)[0], LocsFrom(qs, x)[0];
    0 <= o.table < |ps| && 0 <= i.table < |qs| && SameStorage(ps[o.table], o.col, qs[i.table], i.col, s)
  }

  ghost predicate OutsideAgree(ps: seq<Pattern>, rows: seq<Row>, qs: seq<Pattern>, s: Schema, inner: seq<Row>)
    requires |rows| == |ps| && |inner| == |qs|
  {
    forall x :: Shared(ps, qs, x) && !Hidden(ps, qs, x) ==> FirstCell(ps, s, rows, x) == FirstCell(qs, s, inner, x)
  }

  /** Rows that satisfy the body, the variables compared outside equal to the outer row's. */
  ghost predicate Candidate(ps: seq<Pattern>, rows: seq<Row>, body: seq<Simple>, s: Schema, db: Db, inner: seq<Row>)
    requires |rows| == |ps|
  {
    var qs := PatternsOf(body);
    && BodyRows(body, s, db, inner) && RowsJoin(qs, s, inner)
    && OutsideAgree(ps, rows, qs, s, inner)
  }

  /** The hidden variables equal to the outer row's, as they should be ... */
  ghost predicate HiddenAgree(ps: seq<Pattern>, rows: seq<Row>, qs: seq<Pattern>, s: Schema, inner: seq<Row>)
    requires |rows| == |ps| && |inner| == |qs|
  {
    forall x :: Hidden(ps, qs, x) ==> FirstCell(ps, s, rows, x) == FirstCell(qs, s, inner, x)
  }

  /** ... and compared with the body's own rows, as they are. */
  ghost predicate HiddenOwn(ps: seq<Pattern>, qs: seq<Pattern>, inner: seq<Row>)
    requires PlacesFit(ps, |ps|) && PlacesFit(qs, |inner|)
  {
    forall x :: Hidden(ps, qs, x) ==> OwnEq(ps, qs, inner, x)
  }

  ghost predicate OwnEq(ps: seq<Pattern>, qs: seq<Pattern>, inner: seq<Row>, x: Var)
    requires PlacesFit(ps, |ps|) && PlacesFit(qs, |inner|) && Hidden(ps, qs, x)
  {
    var o, i := LocsFrom(ps, x)[0], LocsFrom(qs, x)[0];
    RawEq(inner[o.table], o.col, inner[i.table], i.col)
  }

  lemma {:induction false} RawIsCell(p: Pattern, col: Column, r: Row, q: Pattern, col': Column, r': Row, s: Schema)
    requires s.Valid() && Plainest(s, r) && Plainest(s, r') && OfAttr(p, s, r) && OfAttr(q, s, r')
    requires Position(col) && Position(col') && SameStorage(p, col, q, col', s)
    ensures RawEq(r, col, r', col') <==> CellAt(p, s, col, r) == CellAt(q, s, col', r')
  {
    hide Plainest, OfAttr, CellAt, ColumnValue, Compare, SqlEq, Schema.Valid, SameStorage;
    RawEqual(p, col, r, q, col', r', s);
    CompareEq(ColumnValue(r, col), ColumnValue(r', col'));
  }

  lemma {:induction false} StarIsCell(qs: seq<Pattern>, s: Schema, inner: seq<Row>, x: Var, k: int)
    requires s.Valid() && InnerStorage(qs, s) && |inner| == |qs| && (forall r :: r in inner ==> Plainest(s, r))
             && AllOfAttr(qs, s, inner)
    requires PlacesFit(qs, |inner|) && 1 <= k < |LocsFrom(qs, x)|
    ensures StarEq(qs, inner, x, k) <==> CellIn(qs, s, inner, LocsFrom(qs, x)[k]) == FirstCell(qs, s, inner, x)
  {
    hide Plainest, OfAttr, CellAt, RawEq, LocsFrom, Schema.Valid, SameStorage;
    var l, m := LocsFrom(qs, x)[0], LocsFrom(qs, x)[k];
    assert l in LocsFrom(qs, x) && m in LocsFrom(qs, x);
    PlaceIff(qs, x, l);
    PlaceIff(qs, x, m);
    assert StandsAt(qs, x, l.table, l.col) && StandsAt(qs, x, m.table, m.col);
    assert inner[l.table] in inner && inner[m.table] in inner;
    RawIsCell(qs[l.table], l.col, inner[l.table], qs[m.table], m.col, inner[m.table], s);
  }

  lemma {:induction false} StarsAreJoins(qs: seq<Pattern>, s: Schema, inner: seq<Row>)
    requires s.Valid() && InnerStorage(qs, s) && |inner| == |qs| && (forall r :: r in inner ==> Plainest(s, r))
             && AllOfAttr(qs, s, inner)
    requires PlacesFit(qs, |inner|)
    ensures RawStars(qs, inner) <==> RowsJoin(qs, s, inner)
  {
    hide Plainest, AllOfAttr, CellAt, InnerStorage, StarEq, FirstCell, LocsFrom, Schema.Valid;
    forall x, k | 1 <= k < |LocsFrom(qs, x)|
      ensures StarEq(qs, inner, x, k) <==> CellIn(qs, s, inner, LocsFrom(qs, x)[k]) == FirstCell(qs, s, inner, x)
    {
      StarIsCell(qs, s, inner, x, k);
    }
    if RawStars(qs, inner) {
      forall x, i, col | StandsAt(qs, x, i, col)
        ensures CellIn(qs, s, inner, Loc(i, col)) == FirstCell(qs, s, inner, x) {
        PlaceIff(qs, x, Loc(i, col));
        var locs := LocsFrom(qs, x);
        var k :| 0 <= k < |locs| && locs[k] == Loc(i, col);
        if k == 0 {
          FirstIsFirst(qs, s, inner, x);
        } else {
          assert StarEq(qs, inner, x, k);
        }
      }
    }
    if RowsJoin(qs, s, inner) {
      forall x, k | 1 <= k < |LocsFrom(qs, x)| ensures StarEq(qs, inner, x, k) {
        var l := LocsFrom(qs, x)[k];
        assert l in LocsFrom(qs, x);
        PlaceIff(qs, x, l);
        assert StandsAt(qs, x, l.table, l.col) && Loc(l.table, l.col) == l;
      }
    }
  }

  lemma {:induction false} OutsideIsEqual(ps: seq<Pattern>, rows: seq<Row>, qs: seq<Pattern>, s: Schema,
                                          rel: set<Row>, inner: seq<Row>, x: Var)
    requires StoredAlike(ps, rows, qs, s, rel) && |inner| == |qs| && (forall r :: r in inner ==> r in rel)
             && AllOfAttr(qs, s, inner)
    requires PlacesFit(ps, |rows|) && PlacesFit(qs, |inner|) && Shared(ps, qs, x) && !Hidden(ps, qs, x)
    ensures SeenEq(ps, rows, qs, inner, x) <==> FirstCell(ps, s, rows, x) == FirstCell(qs, s, inner, x)
  {
    hide Plainest, OfAttr, CellAt, RawEq, LocsFrom, Schema.Valid, SameStorage, InnerStorage, PlacesFit;
    var o, i := LocsFrom(ps, x)[0], LocsFrom(qs, x)[0];
    assert OutsideAlike(ps, qs, s, x);
    PlacesOfVar(ps, x);
    PlacesOfVar(qs, x);
    assert rows[o.table] in rows && inner[i.table] in inner;
    RawIsCell(ps[o.table], o.col, rows[o.table], qs[i.table], i.col, inner[i.table], s);
  }

  lemma {:induction false} SharesSplit(ps: seq<Pattern>, rows: seq<Row>, qs: seq<Pattern>, s: Schema, rel: set<Row>,
                                       inner: seq<Row>)
    requires StoredAlike(ps, rows, qs, s, rel) && |inner| == |qs| && (forall r :: r in inner ==> r in rel)
             && AllOfAttr(qs, s, inner)
    requires PlacesFit(ps, |rows|) && PlacesFit(qs, |inner|)
    ensures var outside := OutsideAgree(ps, rows, qs, s, inner);
            && (RawShares(ps, rows, qs, inner) <==> outside && HiddenOwn(ps, qs, inner))
            && (SharesAgree(ps, rows, qs, inner, s) <==> outside && HiddenAgree(ps, rows, qs, s, inner))
  {
    assert |rows| == |ps|;
    hide StoredAlike, FirstCell, LocsFrom, RawEq, PlacesFit, AllOfAttr;
    forall x | Shared(ps, qs, x)
      ensures !Hidden(ps, qs, x)
              ==> (SeenEq(ps, rows, qs, inner, x) <==> FirstCell(ps, s, rows, x) == FirstCell(qs, s, inner, x))
      ensures Hidden(ps, qs, x) ==> (SeenEq(ps, rows, qs, inner, x) <==> OwnEq(ps, qs, inner, x))
    {
      if !Hidden(ps, qs, x) {
        OutsideIsEqual(ps, rows, qs, s, rel, inner, x);
      } else {
        HiddenIsOwn(ps, rows, qs, inner, x);
      }
    }
    forall x ensures x in VarsOf(ps) && x in VarsOf(qs) <==> Shared(ps, qs, x) {
      PlacesOfVar(ps, x);
      PlacesOfVar(qs, x);
    }
    hide Shared, Hidden, SeenEq, OwnEq, VarsOf;
  }

  lemma {:induction false} HiddenIsOwn(ps: seq<Pattern>, rows: seq<Row>, qs: seq<Pattern>, inner: seq<Row>, x: Var)
    requires |rows| == |ps| && |inner| == |qs| && PlacesFit(ps, |rows|) && PlacesFit(qs, |inner|) && Hidden(ps, qs, x)
    ensures SeenEq(ps, rows, qs, inner, x) <==> OwnEq(ps, qs, inner, x)
  {
    hide LocsFrom, RawEq;
  }

  lemma {:induction false} CandidateSplits(ps: seq<Pattern>, rows: seq<Row>, body: seq<Simple>, s: Schema, db: Db,
                                           inner: seq<Row>)
    requires StoredAlike(ps, rows, PatternsOf(body), s, db.current) && |inner| == |PatternsOf(body)|
    requires PlacesFit(ps, |ps|) && PlacesFit(PatternsOf(body), |inner|)
    ensures Excludes(ps, rows, body, s, db, inner)
            <==> Candidate(ps, rows, body, s, db, inner) && HiddenOwn(ps, PatternsOf(body), inner)
    ensures Satisfied(ps, rows, body, s, db, inner)
            <==> Candidate(ps, rows, body, s, db, inner) && HiddenAgree(ps, rows, PatternsOf(body), s, inner)
  {
    var qs := PatternsOf(body);
    if BodyRows(body, s, db, inner) {
      RowsReady(ps, rows, body, s, db, inner);
      hide StoredAlike, Plainest, AllOfAttr, ExprHolds, ConstsMatch, AssignmentOf, PlacesFit, PatternsOf, ExprsOf,
        InnerStorage, Schema.Valid;
      StarsAreJoins(qs, s, inner);
      SharesSplit(ps, rows, qs, s, db.current, inner);
      hide RawStars, RawShares, RowsJoin, SharesAgree, HiddenOwn, HiddenAgree, Shared, Hidden, FirstCell, BodyRows;
    }
  }

  lemma {:induction false} RowsReady(ps: seq<Pattern>, rows: seq<Row>, body: seq<Simple>, s: Schema, db: Db,
                                     inner: seq<Row>)
    requires StoredAlike(ps, rows, PatternsOf(body), s, db.current) && BodyRows(body, s, db, inner)
    ensures var qs := PatternsOf(body);
            s.Valid() && InnerStorage(qs, s) && |rows| == |ps| && |inner| == |qs|
              && (forall r :: r in inner ==> Plainest(s, r) && r in db.current) && AllOfAttr(qs, s, inner)
  {
    hide Plainest, ExprHolds, AssignmentOf, PatternsOf, ExprsOf, InnerStorage, Schema.Valid, OfAttr, ConstsMatch;
    MatchingRowsOfAttr(PatternsOf(body), s, inner);
  }

  ghost predicate Rightly(ps: seq<Pattern>, rows: seq<Row>, body: seq<Simple>, s: Schema, db: Db, inner: seq<Row>)
    requires |rows| == |ps|
  {
    |inner| == |PatternsOf(body)| && Candidate(ps, rows, body, s, db, inner)
      && HiddenAgree(ps, rows, PatternsOf(body), s, inner)
  }

  ghost predicate Wrongly(ps: seq<Pattern>, rows: seq<Row>, body: seq<Simple>, s: Schema, db: Db, inner: seq<Row>)
    requires |rows| == |ps|
  {
    PlacesDoFit(ps);
    PlacesDoFit(PatternsOf(body));
    |inner| == |PatternsOf(body)| && Candidate(ps, rows, body, s, db, inner) && HiddenOwn(ps, PatternsOf(body), inner)
  }

  /** For any body whose variables are stored alike: the clause is right about outer rows
      exactly when, among the rows that fit its patterns, its expressions and the variables
      compared outside, there are some whose hidden variables equal the outer row's just
      when there are some whose hidden variables equal the body's own. */
  lemma {:induction false} MixedExactly(ps: seq<Pattern>, rows: seq<Row>, body: seq<Simple>, s: Schema, db: Db, b: Body)
    requires AnyBody(ps, rows, body, s, db.current, b) && StoredAlike(ps, rows, PatternsOf(body), s, db.current)
    ensures (FragHolds(ClosedNot(TablesFor(ps, s), b), EnvOf(rows), db)
             <==> NotHolds(body, s, AssignmentOf(ps, s, rows), db.current, db.udf))
            <==> ((exists inner :: Rightly(ps, rows, body, s, db, inner))
                  <==> (exists inner :: Wrongly(ps, rows, body, s, db, inner)))
  {
    assert |rows| == |ps|;
    PlacesDoFit(ps);
    PlacesDoFit(PatternsOf(body));
    hide AnyBody, StoredAlike, FragHolds, NotHolds, ClosedNot, Candidate, HiddenAgree, HiddenOwn, Excludes, Satisfied,
      PatternsOf, PlacesFit;
    NegationExactly(ps, rows, body, s, db, b);
    forall inner
      ensures Rightly(ps, rows, body, s, db, inner) <==> Satisfied(ps, rows, body, s, db, inner)
      ensures Wrongly(ps, rows, body, s, db, inner) <==> Excludes(ps, rows, body, s, db, inner)
    {
      SizesMatch(ps, rows, body, s, db, inner);
      if |inner| == |PatternsOf(body)| {
        CandidateSplits(ps, rows, body, s, db, inner);
      }
    }
  }

  lemma {:induction false} SizesMatch(ps: seq<Pattern>, rows: seq<Row>, body: seq<Simple>, s: Schema, db: Db,
                                      inner: seq<Row>)
    requires |rows| == |ps|
    ensures Satisfied(ps, rows, body, s, db, inner) || Excludes(ps, rows, body, s, db, inner)
            ==> |inner| == |PatternsOf(body)|
  {
  }

  // ---------------------------------------------------------------------
  // Two ends of the scale
  // ---------------------------------------------------------------------

  /** Without hidden variables the clause is right. */
  lemma {:induction false} NothingHiddenIsRight(ps: seq<Pattern>, rows: seq<Row>, body: seq<Simple>, s: Schema,
                                                db: Db, b: Body)
    requires AnyBody(ps, rows, body, s, db.current, b) && StoredAlike(ps, rows, PatternsOf(body), s, db.current)
    requires forall x :: !Hidden(ps, PatternsOf(body), x)
    ensures FragHolds(ClosedNot(TablesFor(ps, s), b), EnvOf(rows), db)
            <==> NotHolds(body, s, AssignmentOf(ps, s, rows), db.current, db.udf)
  {
    assert |rows| == |ps|;
    MixedExactly(ps, rows, body, s, db, b);
    hide AnyBody, StoredAlike, FragHolds, NotHolds, ClosedNot, Candidate, Hidden, PatternsOf;
    forall inner ensures Rightly(ps, rows, body, s, db, inner) <==> Wrongly(ps, rows, body, s, db, inner) {
    }
  }

  /** Where the body has a hidden variable in the very place the outer query has it, the
      comparison is of a column with itself. */
  ghost predicate SamePlace(ps: seq<Pattern>, qs: seq<Pattern>, x: Var) {
    Hidden(ps, qs, x) && LocsFrom(ps, x)[0] == LocsFrom(qs, x)[0]
  }

  /** If all hidden variables are so placed, as the single variable of a one-pattern body
      often is, the clause is right exactly when some candidate agrees with the outer row,
      or there is no candidate at all. */
  lemma {:induction false} SelfComparedExactly(ps: seq<Pattern>, rows: seq<Row>, body: seq<Simple>, s: Schema, db: Db,
                                               b: Body)
    requires AnyBody(ps, rows, body, s, db.current, b) && StoredAlike(ps, rows, PatternsOf(body), s, db.current)
    requires forall x :: Hidden(ps, PatternsOf(body), x) ==> SamePlace(ps, PatternsOf(body), x)
    ensures (FragHolds(ClosedNot(TablesFor(ps, s), b), EnvOf(rows), db)
             <==> NotHolds(body, s, AssignmentOf(ps, s, rows), db.current, db.udf))
            <==> (exists inner :: Rightly(ps, rows, body, s, db, inner))
                 || !exists inner :: Candidate(ps, rows, body, s, db, inner)
  {
    assert |rows| == |ps|;
    MixedExactly(ps, rows, body, s, db, b);
    PlacesDoFit(ps);
    PlacesDoFit(PatternsOf(body));
    hide AnyBody, StoredAlike, FragHolds, NotHolds, ClosedNot, PatternsOf, HiddenAgree, PlacesFit;
    forall inner ensures Wrongly(ps, rows, body, s, db, inner) <==> Candidate(ps, rows, body, s, db, inner) {
      if Candidate(ps, rows, body, s, db, inner) {
        CandidateSize(ps, rows, body, s, db, inner);
        SelfOwn(ps, PatternsOf(body), inner);
      }
    }
    hide Candidate, Wrongly;
  }

  lemma {:induction false} CandidateSize(ps: seq<Pattern>, rows: seq<Row>, body: seq<Simple>, s: Schema, db: Db,
                                         inner: seq<Row>)
    requires |rows| == |ps| && Candidate(ps, rows, body, s, db, inner)
    ensures |inner| == |PatternsOf(body)|
  {
  }

  lemma {:induction false} SelfOwn(ps: seq<Pattern>, qs: seq<Pattern>, inner: seq<Row>)
    requires PlacesFit(ps, |ps|) && PlacesFit(qs, |inner|) && |inner| == |qs|
             && forall x :: Hidden(ps, qs, x) ==> SamePlace(ps, qs, x)
    ensures HiddenOwn(ps, qs, inner)
  {
    forall x | Hidden(ps, qs, x) ensures OwnEq(ps, qs, inner, x) {
      assert SamePlace(ps, qs, x);
      var i := LocsFrom(qs, x)[0];
      assert i in LocsFrom(qs, x);
      PlaceIff(qs, x, i);
      assert OccursAt(qs[i.table], x, i.col) && Position(i.col);
      hide LocsFrom;
      SelfEq(inner[i.table], i.col);
    }
  }

  lemma {:induction false} SelfEq(r: Row, col: Column)
    requires Position(col)
    ensures RawEq(r, col, r, col)
  {
  }
}
