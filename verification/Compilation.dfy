/** compileQuery (query_api.go:156-198), end to end: which queries compile, and what the
    compiled text and parameters return, with inputs bound and under a view. */
module Compilation {
  import opened Prelude
  import opened Values
  import opened Store
  import opened Sql
  import opened Datalog
  import opened Algebra
  import opened Places
  import opened Compiler
  import opened Negation
  import opened Correctness
  import opened Inputs
  import opened Substitution
  import opened AsOf
  import opened QueryApi
  import opened Markers
  import opened Success
  import Algebrize
  import Translate

  // ---------------------------------------------------------------------
  // Acceptance
  // ---------------------------------------------------------------------

  lemma {:induction false} PatternInBody(body: seq<Simple>, m: nat)
    requires m < |body| && body[m].SPattern?
    ensures body[m].p in PatternsOf(body)
    decreases |body|
  {
    if m < |body| - 1 {
      PatternInBody(body[..|body| - 1], m);
    }
  }

  lemma {:induction false} InnerAccepted(ps: seq<Pattern>, body: seq<Simple>, s: Schema)
    requires NotOK(ps, body, s)
    ensures Algebrize.BodyAccepted(body, s)
  {
    hide PatternsOf, ExprsOf, VarsOf, LocsFrom, InnerStorage, Correlates, OneKind, ExprOK;
    forall c | c in body && c.SPattern? ensures Algebrize.PatternError(c.p, s).None? {
      var m :| 0 <= m < |body| && body[m] == c;
      PatternInBody(body, m);
      assert PatternOK(c.p, s);
    }
    forall n | 0 <= n < |body| && body[n].SExpr? ensures Algebrize.ExprResolves({}, PatternsOf(body[..n]), body[n].x) {
      forall el | el in body[n].x.args ensures Algebrize.ArgResolves({}, PatternsOf(body[..n]), el) {
        if el.EVar? {
          assert el.x in VarsOf(PatternsOf(body[..n]));
          PlacesOfVar(PatternsOf(body[..n]), el.x);
        }
      }
    }
  }

  lemma {:induction false} ExprAccepted(ps: seq<Pattern>, s: Schema, x: Expr, g: Given)
    requires ExprOK(ps, s, SubstExpr(x, g))
    ensures Algebrize.ExprResolves(g.Keys, ps, x)
  {
    hide VarsOf, LocsFrom, VarKind, ArgOK;
    forall el | el in x.args ensures Algebrize.ArgResolves(g.Keys, ps, el) {
      if el.EVar? && el.x !in g {
        var j :| 0 <= j < |x.args| && x.args[j] == el;
        assert SubstExpr(x, g).args[j] == el;
        PlacesOfVar(ps, el.x);
      }
    }
  }

  lemma {:induction false} ExprsAccepted(ps: seq<Pattern>, xs: seq<Expr>, s: Schema, g: Given)
    requires BodyOK(ps, SubstExprs(xs, g), s)
    ensures (forall p :: p in ps ==> Algebrize.PatternError(p, s).None?)
            && forall x :: x in xs ==> Algebrize.ExprResolves(g.Keys, ps, x)
  {
    hide OneKind, ExprOK, Algebrize.ExprResolves, SubstExpr;
    forall x | x in xs ensures Algebrize.ExprResolves(g.Keys, ps, x) {
      var i :| 0 <= i < |xs| && xs[i] == x;
      assert SubstExprs(xs, g)[i] in SubstExprs(xs, g);
      ExprAccepted(ps, s, x, g);
    }
  }

  lemma {:induction false} ApartAccepted(q: Query, ps: seq<Pattern>, s: Schema)
    requires InputsApart(q, ps, s)
    ensures forall n :: n in NotsOf(q.where) ==> Algebrize.BodyAccepted(n, s)
    ensures forall x :: x in q.find ==> LocsFrom(ps, x) != []
  {
    hide NotOK, NotsOf, VarsOf, LocsFrom, PatternsOf, Algebrize.BodyAccepted;
    forall n | n in NotsOf(q.where) ensures Algebrize.BodyAccepted(n, s) {
      InnerAccepted(ps, n, s);
    }
    forall x | x in q.find ensures LocsFrom(ps, x) != [] {
      PlacesOfVar(ps, x);
    }
  }

  lemma {:induction false} WellUsedParts(q: Query, s: Schema, vs: seq<Value>)
    requires InputsOK(q, s, vs)
    ensures var ps, xs, g := PatternsOf(SimplesOf(q.where)), ExprsOf(SimplesOf(q.where)), GivenOf(q.ins, vs);
            ps != [] && BodyOK(ps, SubstExprs(xs, g), s) && InputsApart(q, ps, s)
  {
    hide PatternsOf, ExprsOf, SimplesOf, BodyOK, SubstExprs, GivenOf, InputsApart, InputOK, Distinct;
  }

  /** Every query whose variables, inputs and negations are used well is accepted. */
  lemma {:induction false} WellUsedAccepted(q: Query, s: Schema, vs: seq<Value>)
    requires InputsOK(q, s, vs)
    ensures Algebrize.Accepted(q, s)
  {
    var ps, xs, g := PatternsOf(SimplesOf(q.where)), ExprsOf(SimplesOf(q.where)), GivenOf(q.ins, vs);
    InputsAreGiven(q, vs);
    WellUsedParts(q, s, vs);
    hide InputsOK, InputsApart, BodyOK, PatternsOf, ExprsOf, SimplesOf, NotsOf, LocsFrom, GivenOf,
      Algebrize.PatternError, Algebrize.ExprResolves, Algebrize.BodyAccepted;
    ExprsAccepted(ps, xs, s, g);
    ApartAccepted(q, ps, s);
  }

  // ---------------------------------------------------------------------
  // No input is misused
  // ---------------------------------------------------------------------

  lemma {:induction false} WellUsedInput(ps: seq<Pattern>, xs: seq<Expr>, s: Schema, x: Var, v: Value)
    requires InputOK(ps, xs, s, x, v)
    ensures !(UsedIn(xs, x) && InPatterns(ps, x)) && !UsedTwice(xs, x)
  {
    if InPatterns(ps, x) {
      var i :| 0 <= i < |ps| && HasInput(ps[i], x);
      assert OccursAt(ps[i], x, ColV) || OccursAt(ps[i], x, ColE) || OccursAt(ps[i], x, ColTx);
      VarsOfIff(ps, x);
    }
    hide VarsOf;
  }

  lemma {:induction false} NoneMisused(q: Query, s: Schema, vs: seq<Value>)
    requires InputsOK(q, s, vs)
    ensures forall x :: !Misused(q, x)
  {
    var ps, xs := PatternsOf(SimplesOf(q.where)), ExprsOf(SimplesOf(q.where));
    hide PatternsOf, ExprsOf, SimplesOf, NotsOf, VarsOf, BodyOK, InputOK, NotOK, UsedIn, UsedTwice, InPatterns,
      Distinct, SubstExprs, GivenOf;
    forall x | x in q.ins ensures !Misused(q, x) {
      var i :| 0 <= i < |q.ins| && q.ins[i] == x;
      WellUsedInput(ps, xs, s, x, vs[i]);
    }
  }

  lemma {:induction false} WellUsedPatterns(q: Query, s: Schema, vs: seq<Value>)
    requires InputsOK(q, s, vs)
    ensures HasPatterns(q) && Distinct(q.ins)
  {
    hide ExprsOf, SimplesOf, NotsOf, VarsOf, BodyOK, InputOK, SubstExprs, GivenOf, InnerStorage, Correlates, ExprsAfter;
  }

  /** Bound and put under a view, such a query refers to no table that does not exist. */
  lemma {:induction false} WellUsedTranslates(q: Query, s: Schema, vs: seq<Value>, aq: Algebraic, view: View)
    requires InputsOK(q, s, vs) && IsAlgebraOf(q, s, aq)
    ensures BindAll(aq, q.ins, vs).Ok? && Translate.Translatable(Viewed(BindAll(aq, q.ins, vs).value, view))
  {
    hide InputsOK, IsAlgebraOf, BindAll, Viewed, HasPatterns, Misused, Distinct, Translate.Translatable,
      Algebrize.Accepted, PatternsOf, ExprsOf,
      SimplesOf, GivenOf, IsBound, GivenFits;
    BodyBinds(q, s, vs, aq);
    WellUsedAccepted(q, s, vs);
    WellUsedPatterns(q, s, vs);
    NoneMisused(q, s, vs);
    TranslatesExactly(q, s, vs, view, aq);
  }

  // ---------------------------------------------------------------------
  // Constants of bytes
  // ---------------------------------------------------------------------

  /** A table compared with bytes is compared with bytes only. */
  lemma {:induction false} TableEncodes(ps: seq<Pattern>, s: Schema, g: Given, i: int)
    requires SchemaOK(s) && 0 <= i < |ps| && PatternOK(ps[i], s) && GivenFits(ps, s, g)
    ensures BoundEncodes(PlacedTable(ps, i, s, g))
  {
    var p, el := ps[i], ps[i].v;
    if p.v.EVar? && p.v.x in g {
      assert StandsAt(ps, p.v.x, i, ColV);
    }
  }

  lemma {:induction false} FilterEncodes(ps: seq<Pattern>, s: Schema, x: Expr, f: Filter)
    requires OneKind(ps, s) && ExprOK(ps, s, x) && Builtin(x.fn).Some?
    requires SameFilter(f, ResolvedFilter(ps, TypesFrom(ps, s, map[]), {}, x))
    ensures forall a :: a in f.args ==> ArgEncodes(a)
  {
    var types, h := TypesFrom(ps, s, map[]), ResolvedFilter(ps, TypesFrom(ps, s, map[]), {}, x);
    var args := ResolvedArgs(ps, types, {}, x.args);
    forall i | 0 <= i < |f.args| && f.args[i].FConst? && f.args[i].valueType == Some(TBytes)
      ensures f.args[i].c.VBytes? {
      assert SameArg(f.args[i], h.args[i]);
      assert h.args[i] == Typed(args, InferredType(args))[i];
      BytesBeside(ps, s, x, args, i);
    }
  }

  lemma {:induction false} BytesBeside(ps: seq<Pattern>, s: Schema, x: Expr, args: seq<FilterArg>, i: int)
    requires OneKind(ps, s) && ExprOK(ps, s, x) && Builtin(x.fn).Some?
    requires args == ResolvedArgs(ps, TypesFrom(ps, s, map[]), {}, x.args) && 0 <= i < |args|
    requires args[i].FConst? && Typed(args, InferredType(args))[i].valueType == Some(TBytes)
    ensures args[i].c.VBytes?
  {
    var types := TypesFrom(ps, s, map[]);
    hide LocsFrom, TypesFrom, OneKind, VarsOf, VarKind, TypedAt, InferredType;
    forall n | 0 <= n < |args| ensures args[n].FConst? ==> args[n].valueType.None? && x.args[n] == EConst(args[n].c) {
      assert x.args[n] in x.args;
      assert args[n] == ResolvedArg(LocsFrom(ps, VarName(x.args[n])), types, {}, x.args[n]);
      PlacesOfVar(ps, VarName(x.args[n]));
    }
    TypedIsOfAVar(args, i, TBytes);
    var n :| 0 <= n < |args| && args[n].FVar? && args[n].valueType == Some(TBytes);
    assert args[n] == ResolvedArg(LocsFrom(ps, VarName(x.args[n])), types, {}, x.args[n]);
    var y := x.args[n].x;
    TypesAreOfPlaces(ps, s, map[], y);
    var k :| ArgOK(ps, s, x.args[0], k) && ArgOK(ps, s, x.args[1], k);
    KindIsBytes(ps, s, y, k);
  }

  lemma {:induction false} KindIsBytes(ps: seq<Pattern>, s: Schema, y: Var, k: Kind)
    requires OneKind(ps, s) && VarKind(ps, s, y, k) && TypedAt(ps, s, y, TBytes)
    ensures k == KBytes
  {
    var i, col :| StandsAt(ps, y, i, col) && KindAt(ps[i], s, col) == k;
    KindsEqual(ps, s, y, Loc(i, col), TBytes);
  }

  /** encodeParams accepts a query without calls, which compares bytes with bytes only. */
  lemma {:induction false} ComparisonsEncode(ps: seq<Pattern>, xs: seq<Expr>, s: Schema, g: Given, b: Body)
    requires SchemaOK(s) && IsBound(ps, xs, g.Keys, s, g, b) && BodyOK(ps, SubstExprs(xs, g), s) && GivenFits(ps, s, g)
    requires forall x :: x in xs ==> Builtin(x.fn).Some?
    ensures Encodes(b.tables, b.filters)
  {
    hide OneKind, ExprOK, PatternOK, GivenFits, SameFilter, ResolvedFilter, TypesFrom, PlacedTable, BoundEncodes,
      ArgEncodes, Builtin, SchemaOK;
    assert g.Keys - g.Keys == {};
    var hs := ResolvedFilters(ps, TypesFrom(ps, s, map[]), {}, SubstExprs(xs, g));
    forall i | 0 <= i < |ps| ensures BoundEncodes(b.tables[i]) {
      TableEncodes(ps, s, g, i);
    }
    forall i, a | 0 <= i < |xs| && a in b.filters[i].args ensures ArgEncodes(a) {
      assert SubstExprs(xs, g)[i] in SubstExprs(xs, g);
      assert SameFilter(b.filters[i], hs[i]);
      FilterEncodes(ps, s, SubstExprs(xs, g)[i], b.filters[i]);
    }
  }

  lemma {:induction false} WellUsedEncodes(q: Query, s: Schema, vs: seq<Value>, aq: Algebraic, view: View)
    requires SchemaOK(s) && InputsOK(q, s, vs) && IsAlgebraOf(q, s, aq)
    requires forall x :: x in ExprsOf(SimplesOf(q.where)) ==> Builtin(x.fn).Some?
    ensures BindAll(aq, q.ins, vs).Ok?
    ensures var b := Viewed(BindAll(aq, q.ins, vs).value, view).body; Encodes(b.tables, b.filters)
  {
    var ps, xs, g := PatternsOf(SimplesOf(q.where)), ExprsOf(SimplesOf(q.where)), GivenOf(q.ins, vs);
    hide SchemaOK, InputsOK, IsAlgebraOf, BodyOK, InputsApart, PatternsOf, ExprsOf, SimplesOf, GivenOf, BindAll,
      GivenFits, IsBound, SubstExprs, AddedFilters, AddedRaws, Encodes, Builtin;
    BodyBinds(q, s, vs, aq);
    WellUsedParts(q, s, vs);
    var bound := BindAll(aq, q.ins, vs).value;
    ComparisonsEncode(ps, xs, s, g, bound.body);
    ViewedSame(bound.body, view);
    assert Viewed(bound, view).body == if view.IsAsOf() then ViewedBody(bound.body, view) else bound.body;
  }

  // ---------------------------------------------------------------------
  // Meaning
  // ---------------------------------------------------------------------

  /** The rows a compiled query is about. */
  function RowsUnder(view: View, db: Db): set<Row> {
    if view.IsAsOf() then Shown(db.datoms, view) else db.current
  }

  /** Under a view negations are left out: their tables stay on current_datoms. */
  ghost predicate Supported(q: Query, s: Schema, vs: seq<Value>, view: View) {
    SchemaOK(s) && InputsOK(q, s, vs) && (view.IsAsOf() ==> NotsOf(q.where) == [])
  }

  lemma {:induction false} BoundTablesPlain(ps: seq<Pattern>, xs: seq<Expr>, s: Schema, g: Given, b: Body)
    requires IsBound(ps, xs, g.Keys, s, g, b)
    ensures TablesPlain(b.tables)
  {
    hide SameFilters, ResolvedFilters, SubstExprs, TypesFrom, Placed;
  }

  lemma {:induction false} BoundIsPlain(q: Query, s: Schema, vs: seq<Value>, aq: Algebraic)
    requires SchemaOK(s) && InputsOK(q, s, vs) && IsAlgebraOf(q, s, aq) && NotsOf(q.where) == []
    ensures BindAll(aq, q.ins, vs).Ok? && NoNegation(BindAll(aq, q.ins, vs).value)
  {
    InputsAreGiven(q, vs);
    BodyBinds(q, s, vs, aq);
    AlgebraParts(q, s, GivenOf(q.ins, vs), aq);
    var ps, xs, g := PatternsOf(SimplesOf(q.where)), ExprsOf(SimplesOf(q.where)), GivenOf(q.ins, vs);
    assert aq.nots == [];
    hide SchemaOK, InputsOK, IsAlgebraOf, PatternsOf, ExprsOf, SimplesOf, GivenOf, BindAll, GivenFits, IsBound,
      BodyOf, TablesPlain;
    BoundTablesPlain(ps, xs, s, g, BindAll(aq, q.ins, vs).value.body);
  }

  /** The bound query, under its view, returns the Datalog answers of the substituted query
      over the rows the view shows. */
  lemma {:induction false} ViewedMeans(q: Query, s: Schema, vs: seq<Value>, view: View, aq: Algebraic, db: Db,
                                       out: seq<DVal>)
    requires Supported(q, s, vs, view) && IsAlgebraOf(q, s, aq) && DataOK(q, s, RowsUnder(view, db))
    ensures BindAll(aq, q.ins, vs).Ok?
    ensures QueryReturns(Viewed(BindAll(aq, q.ins, vs).value, view), db, out)
            <==> Answers(SubstQuery(q, GivenOf(q.ins, vs)), s, RowsUnder(view, db), db.udf, out)
  {
    var shown := db.(current := RowsUnder(view, db));
    hide SchemaOK, InputsOK, IsAlgebraOf, DataOK, QueryReturns, Answers, GivenOf, BindAll, Shown, NoNegation, ApplyAsOf;
    BindingIsSubstitution(q, s, vs, aq, shown, out);
    if view.IsAsOf() {
      BoundIsPlain(q, s, vs, aq);
      AsOfIsQueryOverShown(BindAll(aq, q.ins, vs).value, view, db, out);
    }
  }

  /** What the statement returns, read with its :find elements, are the Datalog answers of
      the query with its inputs replaced, on every database. */
  ghost predicate Means(sql: SqlQuery, find: seq<FindMapping>, q: Query, s: Schema, vs: seq<Value>, view: View) {
    |q.ins| <= |vs| && forall db, out :: DataOK(q, s, RowsUnder(view, db)) ==>
      (StatementReturns(sql, find, db, out)
       <==> Answers(SubstQuery(q, GivenOf(q.ins, vs)), s, RowsUnder(view, db), db.udf, out))
  }

  ghost predicate StatementReturns(sql: SqlQuery, find: seq<FindMapping>, db: Db, out: seq<DVal>) {
    exists row :: Returns(sql, db, row) && Reads(find, row, out)
  }

  /** The rows a query is about: current_datoms without a view, and else the assertions of
      the log that no retraction by the transaction withdraws and that are valid by then. */
  ghost predicate AreShown(rel: set<Row>, view: View, db: Db) {
    forall d :: d in rel <==>
      if view.txID <= 0 && view.validTime.None? then d in db.current
      else
        && d in db.datoms && d.added
        && (view.txID > 0 ==>
              d.tx <= view.txID && forall r :: r in db.datoms && r.fact == d.fact && !r.added ==> view.txID < r.tx)
        && (view.validTime.Some?
            ==> d.validFrom <= view.validTime.value && view.validTime.value < 0x7FFF_FFFF_FFFF_FFFF)
  }

  /** What a compiled query returns under each kind of view, by the rows of the database. */
  lemma {:induction false} ReturnsOverRows(sql: SqlQuery, find: seq<FindMapping>, q: Query, s: Schema, vs: seq<Value>,
                                           view: View, db: Db, rel: set<Row>, out: seq<DVal>)
    requires Means(sql, find, q, s, vs, view) && AreShown(rel, view, db) && DataOK(q, s, rel)
    ensures StatementReturns(sql, find, db, out) <==> Answers(SubstQuery(q, GivenOf(q.ins, vs)), s, rel, db.udf, out)
  {
    hide StatementReturns, Answers, DataOK, SubstQuery, GivenOf;
    assert rel == RowsUnder(view, db);
  }

  lemma {:induction false} TranslatedMeans(q: Query, s: Schema, vs: seq<Value>, view: View, aq: Algebraic)
    requires Supported(q, s, vs, view) && IsAlgebraOf(q, s, aq)
    ensures BindAll(aq, q.ins, vs).Ok?
    ensures Means(Translated(Viewed(BindAll(aq, q.ins, vs).value, view)), aq.find, q, s, vs, view)
  {
    assert BindAll(aq, q.ins, vs).Ok? && BindAll(aq, q.ins, vs).value.find == aq.find by {
      hide InputsOK, IsAlgebraOf;
      BodyBinds(q, s, vs, aq);
    }
    var final := Viewed(BindAll(aq, q.ins, vs).value, view);
    assert final.find == aq.find;
    hide Supported, IsAlgebraOf, DataOK, RowsUnder, Answers, GivenOf, BindAll, SubstQuery, Translated, Returns, Reads,
      Viewed;
    forall db, out | DataOK(q, s, RowsUnder(view, db))
      ensures StatementReturns(Translated(final), final.find, db, out)
              <==> Answers(SubstQuery(q, GivenOf(q.ins, vs)), s, RowsUnder(view, db), db.udf, out)
    {
      ViewedMeans(q, s, vs, view, aq, db, out);
    }
  }

  // ---------------------------------------------------------------------
  // compileQuery
  // ---------------------------------------------------------------------

  datatype CompileError =
    | Refused(a: Algebrize.AlgebraError)
    | Input(i: InputError)
    | Translation(t: Translate.TranslateError)
    | Encoding(e: InputError)

  /** No calls, only comparisons, outside negations. */
  ghost predicate OnlyComparisons(q: Query) {
    forall x :: x in ExprsOf(SimplesOf(q.where)) ==> Builtin(x.fn).Some?
  }

  /** A query whose variables, inputs and negations are used well is compilable exactly
      when it compares bytes with bytes. */
  lemma {:induction false} WellUsedCompilable(q: Query, s: Schema, vs: seq<Value>, aq: Algebraic)
    requires SchemaOK(s) && InputsOK(q, s, vs) && IsAlgebraOf(q, s, aq)
    ensures Distinct(q.ins) && (Compilable(q, s, vs) <==> BytesMatch(q, s))
  {
    hide InputsOK, IsAlgebraOf, BindAll, HasPatterns, Misused, Distinct, AllPlaceable, BytesMatch, PatternsOf,
      ExprsOf, SimplesOf, GivenOf, IsBound, GivenFits,
      Binding;
    BodyBinds(q, s, vs, aq);
    WellUsedPatterns(q, s, vs);
    NoneMisused(q, s, vs);
    BindsExactly(q, s, vs, aq);
  }

  lemma {:induction false} WellUsedCompiles(q: Query, s: Schema, vs: seq<Value>, view: View, aq: Algebraic)
    requires SchemaOK(s) && InputsOK(q, s, vs) && OnlyComparisons(q) && IsAlgebraOf(q, s, aq)
    ensures Compiles(q, vs, view, aq)
  {
    hide SchemaOK, InputsOK, IsAlgebraOf, BindAll, Viewed, Encodes, Translate.Translatable;
    WellUsedTranslates(q, s, vs, aq, view);
    WellUsedEncodes(q, s, vs, aq, view);
  }

  /** compileQuery: algebrize, bind the inputs, apply the view, translate, encode. Which
      queries compile can be told from the query, its inputs and the schema. One whose
      variables, inputs and negations are used well compiles exactly when it compares bytes
      with bytes, so always when it makes no calls, and its statement returns exactly its
      Datalog answers. */
  method CompileQuery(q: Query, schema: Schema, vs: seq<Value>, view: View)
    returns (r: Result<(SqlQuery, seq<FindMapping>), CompileError>, ghost aq: Algebraic)
    ensures Algebrize.Accepted(q, schema) ==> IsAlgebraOf(q, schema, aq)
    ensures r.Ok? ==> BindAll(aq, q.ins, vs).Ok?
    ensures r.Ok? ==> r.value == (Translated(Viewed(BindAll(aq, q.ins, vs).value, view)), aq.find)
    ensures Distinct(q.ins) ==> (r.Ok? <==> Algebrize.Accepted(q, schema) && Compilable(q, schema, vs))
    ensures SchemaOK(schema) && InputsOK(q, schema, vs) ==> (r.Ok? <==> BytesMatch(q, schema))
    ensures SchemaOK(schema) && InputsOK(q, schema, vs) && OnlyComparisons(q) ==> r.Ok?
    ensures r.Ok? && Supported(q, schema, vs, view) ==> Means(r.value.0, r.value.1, q, schema, vs, view)
  {
    hide IsAlgebraOf, BindAll, ApplyAsOf, Translated, Algebrize.Accepted, Translate.Translatable, Encodes, Supported,
      Means, OnlyComparisons, SchemaOK,
      InputsOK, Compilable, BytesMatch, Distinct;
    var a := Algebrize.Algebrize(q, schema);
    if InputsOK(q, schema, vs) {
      WellUsedAccepted(q, schema, vs);
    }
    if a.Err? {
      r, aq := Err(Refused(a.error)), *;
      return;
    }
    if SchemaOK(schema) && InputsOK(q, schema, vs) {
      WellUsedCompilable(q, schema, vs, a.value);
      if OnlyComparisons(q) {
        WellUsedCompiles(q, schema, vs, view, a.value);
      }
    }
    if Distinct(q.ins) {
      CompilesExactly(q, schema, vs, view, a.value);
    }
    if Supported(q, schema, vs, view) {
      TranslatedMeans(q, schema, vs, view, a.value);
    }
    var obj := new AlgebraicQuery(a.value);
    var b := obj.BindInputArgs(q.ins, vs);
    if b.Err? {
      return Err(Input(b.error)), a.value;
    }
    if view.IsAsOf() {
      obj.ApplyView(view);
    }
    var sql := Translate.Translate(obj.Contents());
    if sql.Err? {
      return Err(Translation(sql.error)), a.value;
    }
    var st := new Statement(sql.value);
    var _, e := st.EncodeParams(obj.Contents());
    if e.Err? {
      return Err(Encoding(e.error)), a.value;
    }
    r, aq := Ok((SqlQuery(sql.value.select, sql.value.from, sql.value.where, st.params), a.value.find)), a.value;
  }
}
