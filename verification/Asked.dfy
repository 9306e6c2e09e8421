/** The two smallest queries, [?e a c] and [?e a ?v] with a comparison, from the statement
    that compileQuery returns down to the values that were stored. */
module Asked {
  import opened Prelude
  import opened Values
  import opened Store
  import opened Sql
  import opened Datalog
  import opened Algebra
  import opened Places
  import opened Compiler
  import opened Correctness
  import opened Inputs
  import opened Substitution
  import opened AsOf
  import opened EndToEnd
  import opened Compilation
  import opened Reals
  import opened Decoded
  import Invariants

  // ---------------------------------------------------------------------
  // The queries
  // ---------------------------------------------------------------------

  /** [?e a v] */
  function Triple(e: Var, a: Bytes, v: Elem): Pattern {
    Pattern(EVar(e), EConst(VString(a)), v, EBlank)
  }

  /** [:find ?e :where [?e a c]] */
  function Having(e: Var, a: Bytes, c: Value): Query {
    Query([e], [CSimple(SPattern(Triple(e, a, EConst(c))))], [])
  }

  /** [:find ?e :where [?e a ?v] [(op ?v c)]] */
  function Comparing(e: Var, a: Bytes, v: Var, op: string, c: Value): Query
    requires Operator(op)
  {
    Query([e], [CSimple(SPattern(Triple(e, a, EVar(v)))), CSimple(SExpr(Comparison(v, op, c)))], [])
  }

  function Comparison(v: Var, op: string, c: Value): Expr
    requires Operator(op)
  {
    Expr(Name(op), [EVar(v), EConst(c)])
  }

  lemma {:induction false} HavingParts(e: Var, a: Bytes, c: Value)
    ensures var w := Having(e, a, c).where;
            && PatternsOf(SimplesOf(w)) == [Triple(e, a, EConst(c))] && ExprsOf(SimplesOf(w)) == [] && NotsOf(w) == []
  {
    var w := Having(e, a, c).where;
    SimplesSnoc([], w[0]);
    PartsSnoc([], w[0].s);
    assert [] + [w[0]] == w && [] + [w[0].s] == [w[0].s];
  }

  lemma {:induction false} TwoSimples(s1: Simple, s2: Simple)
    ensures SimplesOf([CSimple(s1), CSimple(s2)]) == [s1, s2] && NotsOf([CSimple(s1), CSimple(s2)]) == []
  {
    var c1, c2 := CSimple(s1), CSimple(s2);
    hide SimplesOf, NotsOf;
    NoSimples();
    SimplesSnoc([], c1);
    SimplesSnoc([c1], c2);
    assert [] + [c1] == [c1] && [c1] + [c2] == [c1, c2] && [] + [s1] == [s1] && [s1] + [s2] == [s1, s2];
  }

  lemma {:induction false} NoSimples()
    ensures SimplesOf([]) == [] && NotsOf([]) == [] && PatternsOf([]) == [] && ExprsOf([]) == []
  {
  }

  lemma {:induction false} PatternThenExpr(p: Pattern, x: Expr)
    ensures PatternsOf([SPattern(p), SExpr(x)]) == [p] && ExprsOf([SPattern(p), SExpr(x)]) == [x]
  {
    var s1, s2 := SPattern(p), SExpr(x);
    hide PatternsOf, ExprsOf;
    NoSimples();
    PartsSnoc([], s1);
    PartsSnoc([s1], s2);
    assert [] + [s1] == [s1] && [s1] + [s2] == [s1, s2] && [] + [p] == [p] && [] + [x] == [x] && [p] + [] == [p];
  }

  lemma {:induction false} ComparingParts(e: Var, a: Bytes, v: Var, op: string, c: Value)
    requires Operator(op)
    ensures var w := Comparing(e, a, v, op, c).where;
            && PatternsOf(SimplesOf(w)) == [Triple(e, a, EVar(v))] && ExprsOf(SimplesOf(w)) == [Comparison(v, op, c)]
            && NotsOf(w) == []
  {
    var p, x := Triple(e, a, EVar(v)), Comparison(v, op, c);
    hide Triple, Comparison, PatternsOf, ExprsOf, SimplesOf, NotsOf;
    TwoSimples(SPattern(p), SExpr(x));
    PatternThenExpr(p, x);
  }

  lemma {:induction false} TripleVars(e: Var, a: Bytes, v: Elem)
    ensures VarsOf([Triple(e, a, v)]) == if v.EVar? then {e, v.x} else {e}
    ensures forall x, col ::
              OccursAt(Triple(e, a, v), x, col) <==> (x == e && col == ColE) || (v == EVar(x) && col == ColV)
  {
    var p := Triple(e, a, v);
    assert Occurs(p) == [(e, ColE)] + if v.EVar? then [(v.x, ColV)] else [];
    assert p in [p] && (e, ColE) in Occurs(p);
    if v.EVar? {
      assert Occurs(p)[1] == (v.x, ColV) && (v.x, ColV) in Occurs(p);
    }
  }

  // ---------------------------------------------------------------------
  // Answers
  // ---------------------------------------------------------------------

  /** A row of the attribute. */
  predicate RowOf(s: Schema, a: Bytes, r: Row, n: int) {
    a in s.byIdent && r.fact.a == s.byIdent[a].id && r.fact.e == n
  }

  lemma {:induction false} HavingAnswers(e: Var, a: Bytes, c: Value, s: Schema, rel: set<Row>,
                                         udf: (Bytes, seq<SqlVal>) -> bool, n: int)
    requires a in s.byIdent && c != VNil
    ensures Answers(Having(e, a, c), s, rel, udf, [Plain(SInt(n))]) <==>
            exists r :: r in rel && RowOf(s, a, r, n)
              && SqlEq(Cmp(CellAt(Triple(e, a, EConst(c)), s, ColV, r)), Param(c))
  {
    var q, p := Having(e, a, c), Triple(e, a, EConst(c));
    HavingParts(e, a, c);
    TripleVars(e, a, EConst(c));
    hide PatternsOf, ExprsOf, SimplesOf, NotsOf, VarsOf, SqlEq, Param, Cmp, Stored;
    if sigma :| Satisfies(q, s, sigma, rel, udf) && Projects(q.find, sigma, [Plain(SInt(n))]) {
      assert p in [p] && PatternHolds(p, s, sigma, rel);
      var r :| r in rel && Matches(p, s, sigma, r);
      assert OccursAt(p, e, ColE) && q.find[0] == e;
      assert RowOf(s, a, r, n);
    }
    if r :| r in rel && RowOf(s, a, r, n) && SqlEq(Cmp(CellAt(p, s, ColV, r)), Param(c)) {
      var sigma: Assignment := map[e := Plain(SInt(n))];
      assert Matches(p, s, sigma, r) && PatternHolds(p, s, sigma, rel);
      assert Satisfies(q, s, sigma, rel, udf) && Projects(q.find, sigma, [Plain(SInt(n))]);
    }
  }

  ghost predicate ComparingRow(e: Var, a: Bytes, v: Var, op: string, c: Value, s: Schema,
                               udf: (Bytes, seq<SqlVal>) -> bool, n: int, r: Row)
    requires Operator(op)
  {
    RowOf(s, a, r, n) && ExprHolds(Comparison(v, op, c), map[v := CellAt(Triple(e, a, EVar(v)), s, ColV, r)], udf)
  }

  /** Matching [?e a ?v]. */
  lemma {:induction false} TripleMatches(e: Var, a: Bytes, v: Var, s: Schema, sigma: Assignment, r: Row)
    requires a in s.byIdent && e != v
    ensures Matches(Triple(e, a, EVar(v)), s, sigma, r) <==>
            && RowOf(s, a, r, r.fact.e) && e in sigma && sigma[e] == Plain(SInt(r.fact.e))
            && v in sigma && sigma[v] == CellAt(Triple(e, a, EVar(v)), s, ColV, r)
  {
    var p := Triple(e, a, EVar(v));
    hide VarsOf, Stored;
    TripleVars(e, a, EVar(v));
    assert OccursAt(p, e, ColE) && OccursAt(p, v, ColV);
  }

  lemma {:induction false} ComparingSatisfied(e: Var, a: Bytes, v: Var, op: string, c: Value, s: Schema,
                                              sigma: Assignment,
                                              rel: set<Row>, udf: (Bytes, seq<SqlVal>) -> bool)
    requires Operator(op)
    ensures Satisfies(Comparing(e, a, v, op, c), s, sigma, rel, udf)
            <==> sigma.Keys == {e, v} && PatternHolds(Triple(e, a, EVar(v)), s, sigma, rel)
                 && ExprHolds(Comparison(v, op, c), sigma, udf)
  {
    hide PatternsOf, ExprsOf, SimplesOf, NotsOf, PatternHolds, ExprHolds, Name, Triple, Comparison, VarsOf;
    ComparingParts(e, a, v, op, c);
    TripleVars(e, a, EVar(v));
    var p, x, w := Triple(e, a, EVar(v)), Comparison(v, op, c), Comparing(e, a, v, op, c).where;
    assert forall p' :: p' in PatternsOf(SimplesOf(w)) <==> p' == p;
    assert forall x' :: x' in ExprsOf(SimplesOf(w)) <==> x' == x;
  }

  lemma {:induction false} AnswerGivesRow(e: Var, a: Bytes, v: Var, op: string, c: Value, s: Schema, rel: set<Row>,
                                          udf: (Bytes, seq<SqlVal>) -> bool, n: int) returns (r: Row)
    requires a in s.byIdent && Operator(op) && e != v
             && Answers(Comparing(e, a, v, op, c), s, rel, udf, [Plain(SInt(n))])
    ensures r in rel && ComparingRow(e, a, v, op, c, s, udf, n, r)
  {
    var q, p := Comparing(e, a, v, op, c), Triple(e, a, EVar(v));
    hide Satisfies, Matches, ExprHolds, Name, CellAt, Comparison;
    var sigma :| Satisfies(q, s, sigma, rel, udf) && Projects(q.find, sigma, [Plain(SInt(n))]);
    ComparingSatisfied(e, a, v, op, c, s, sigma, rel, udf);
    r :| r in rel && Matches(p, s, sigma, r);
    TripleMatches(e, a, v, s, sigma, r);
    assert q.find[0] == e;
    SameArgument(v, op, c, sigma, map[v := CellAt(p, s, ColV, r)], udf);
  }

  lemma {:induction false} RowGivesAnswer(e: Var, a: Bytes, v: Var, op: string, c: Value, s: Schema, rel: set<Row>,
                                          udf: (Bytes, seq<SqlVal>) -> bool, n: int, r: Row)
    requires a in s.byIdent && Operator(op) && e != v && r in rel && ComparingRow(e, a, v, op, c, s, udf, n, r)
    ensures Answers(Comparing(e, a, v, op, c), s, rel, udf, [Plain(SInt(n))])
  {
    var q, p := Comparing(e, a, v, op, c), Triple(e, a, EVar(v));
    hide Satisfies, Matches, ExprHolds, Name, CellAt, Comparison;
    var sigma: Assignment := map[e := Plain(SInt(n)), v := CellAt(p, s, ColV, r)];
    SameArgument(v, op, c, sigma, map[v := CellAt(p, s, ColV, r)], udf);
    TripleMatches(e, a, v, s, sigma, r);
    ComparingSatisfied(e, a, v, op, c, s, sigma, rel, udf);
    assert Projects(q.find, sigma, [Plain(SInt(n))]);
  }

  lemma {:induction false} SameArgument(v: Var, op: string, c: Value, sigma: Assignment, tau: Assignment,
                                        udf: (Bytes, seq<SqlVal>) -> bool)
    requires Operator(op) && v in sigma && v in tau && sigma[v] == tau[v]
    ensures ExprHolds(Comparison(v, op, c), sigma, udf) <==> ExprHolds(Comparison(v, op, c), tau, udf)
  {
    var args := Comparison(v, op, c).args;
    assert ArgValues(args, sigma) == ArgValues(args, tau);
  }

  // ---------------------------------------------------------------------
  // Stored values
  // ---------------------------------------------------------------------

  /** The value position of a row of a known attribute, by the decoded value. */
  lemma {:induction false} PositionHolds(p: Pattern, a: Bytes, s: Schema, r: Row)
    requires s.Valid() && Clean(s, r) && RowOf(s, a, r, r.fact.e) && p.a == EConst(VString(a))
    ensures var t := s.byIdent[a].valueType; var cell := CellAt(p, s, ColV, r);
            && WellFormed(r.fact.v, t) && DecodeValue(r.fact.v, t).Ok?
            && match DecodeValue(r.fact.v, t).value
               case VInt(k) => cell == Plain(SInt(k))
               case VBool(b) => cell == Plain(SInt(if b then 1 else 0))
               case VInst(ms) => cell == Plain(SInt(ms))
               case VString(z) => cell == Plain(SText(z))
               case VFloat(x) => Finite(x)
                 ==> cell.Plain? && cell.v.SReal? && Finite(cell.v.bits) && RealOf(cell.v.bits) == RealOf(x)
               case VBytes(z) => cell == Encoded(TBytes, z)
               case VNil => false
  {
    var t := s.byIdent[a].valueType;
    assert s.byID[r.fact.a] == s.byIdent[a];
    hide Exp2, RealOf, Finite, Schema.Valid;
    ColumnsRead(r.fact.v, t, DecodeValue(r.fact.v, t).value);
    ColumnRead(t);
    assert PatType(p, s) == Some(t);
    hide DecodeInt, DecodeFloat, TypedCellsOf, TypedColumnOf;
  }

  /** A value that a constant of a query can stand for: no instant, no NaN, no zero. */
  predicate Askable(c: Value) {
    !c.VInst? && !c.VNil? && (c.VFloat? ==> Finite(c.bits) && RealOf(c.bits) != 0.0)
  }

  /** The value position equals a constant exactly when the constant's encoding is stored. */
  lemma {:induction false} ConstantMatches(e: Var, a: Bytes, c: Value, s: Schema, r: Row, n: int)
    requires s.Valid() && Clean(s, r) && RowOf(s, a, r, n) && Askable(c)
    requires EncodeValue(c, s.byIdent[a].valueType).Ok?
    requires s.byIdent[a].valueType == TFloat ==> FiniteStored(r)
    ensures SqlEq(Cmp(CellAt(Triple(e, a, EConst(c)), s, ColV, r)), Param(c))
            <==> r.fact.v == EncodeValue(c, s.byIdent[a].valueType).value
  {
    var t := s.byIdent[a].valueType;
    hide Exp2, RealOf, Finite, Schema.Valid, Clean, CellAt, Exponent, Fraction;
    PositionHolds(Triple(e, a, EConst(c)), a, s, r);
    ParamIs(c);
    ValueRoundTrip(c, t);
    DecodeRoundTripExactly(r.fact.v, t);
    var d := DecodeValue(r.fact.v, t).value;
    assert r.fact.v == EncodeValue(c, t).value <==> d == c;
    hide WellFormed, Param;
    if t == TFloat {
      var cell := CellAt(Triple(e, a, EConst(c)), s, ColV, r).v.bits;
      FloatsCompare(cell, Param(c).bits);
      OneFloat(d.bits, c.bits);
      hide NumEqual, NumLess;
    }
  }

  predicate FiniteStored(r: Row) {
    match DecodeValue(r.fact.v, TFloat)
    case Ok(VFloat(x)) => Finite(x)
    case _ => true
  }

  /** Other than zero, a number has one representation. */
  lemma {:induction false} OneFloat(x: u64, y: u64)
    requires Finite(x) && Finite(y) && RealOf(y) != 0.0
    ensures RealOf(x) == RealOf(y) <==> x == y
  {
    hide Exp2;
    FiniteIs(x);
    FiniteIs(y);
    FloatsCompare(x, y);
    NumOrder(x, y);
    if IsZero(y) {
      ZeroIsZero(y);
    }
    hide RealOf, NumEqual, NumLess;
  }

  lemma {:induction false} ZeroIsZero(y: u64)
    requires IsZero(y)
    ensures Finite(y) && RealOf(y) == 0.0
  {
    FiniteIs(y);
    Zeroed(Exp2(-1022));
    hide Exp2;
  }

  lemma {:induction false} Zeroed(p: real)
    ensures 0.0 * p == 0.0
  {
  }

  // ---------------------------------------------------------------------
  // From the statement to the values
  // ---------------------------------------------------------------------

  /** A known attribute, a constant of its type, and data without NaN or infinity. */
  ghost predicate Asking(a: Bytes, c: Value, s: Schema, rel: set<Row>) {
    && SchemaOK(s) && a in s.byIdent && Askable(c) && EncodeValue(c, s.byIdent[a].valueType).Ok?
    && RelationOK(s, rel) && (s.byIdent[a].valueType == TFloat ==> forall r :: r in rel ==> FiniteStored(r))
  }

  lemma {:induction false} PlainQueries(q: Query, s: Schema, p: Pattern, xs: seq<Expr>, view: View)
    requires SchemaOK(s) && q.ins == [] && PatternsOf(SimplesOf(q.where)) == [p] && ExprsOf(SimplesOf(q.where)) == xs
    requires NotsOf(q.where) == [] && BodyOK([p], xs, s) && forall x :: x in q.find ==> x in VarsOf([p])
    ensures Supported(q, s, [], view) && SubstQuery(q, GivenOf([], [])) == Query(q.find, SubstWhere(q.where, map[]), [])
  {
    NothingSubstituted(xs);
    hide PatternsOf, ExprsOf, SimplesOf, NotsOf, VarsOf, BodyOK, SubstExprs, SubstWhere;
  }

  lemma {:induction false} NothingInWhere(where: seq<Clause>)
    ensures SubstWhere(where, map[]) == where
  {
    if where != [] {
      NothingInWhere(where[..|where| - 1]);
      var c := where[|where| - 1];
      if c.CSimple? && c.s.SExpr? {
        assert SubstElems(c.s.x.args, map[]) == c.s.x.args;
      }
    }
  }

  lemma {:induction false} OnePatternKinds(e: Var, a: Bytes, el: Elem, s: Schema)
    requires a in s.byIdent && (el.EVar? ==> el.x != e) && !el.EBlank?
    requires el.EConst? ==> ConstFits(el.c, KindOfType(s.byIdent[a].valueType))
    ensures BodyOK([Triple(e, a, el)], [], s)
    ensures el.EVar? ==> forall k ::
                           VarKind([Triple(e, a, el)], s, el.x, k) <==> k == KindOfType(s.byIdent[a].valueType)
  {
    var p := Triple(e, a, el);
    var ps := [p];
    TripleVars(e, a, el);
    assert PatType(p, s) == Some(s.byIdent[a].valueType);
    hide OccursAt, KindOfType;
    assert forall x, i, col :: StandsAt(ps, x, i, col) <==> i == 0 && OccursAt(p, x, col);
    if el.EVar? {
      assert StandsAt(ps, el.x, 0, ColV) && KindAt(ps[0], s, ColV) == KindOfType(s.byIdent[a].valueType);
    }
  }

  lemma {:induction false} FittingKind(c: Value, t: ValueType)
    requires Askable(c) && EncodeValue(c, t).Ok?
    ensures ConstFits(c, KindOfType(t)) && KindOfType(t) != KRaw
  {
  }

  lemma {:induction false} ComparisonOK(e: Var, a: Bytes, v: Var, op: string, c: Value, s: Schema)
    requires a in s.byIdent && Askable(c) && EncodeValue(c, s.byIdent[a].valueType).Ok? && Operator(op) && e != v
    ensures BodyOK([Triple(e, a, EVar(v))], [Comparison(v, op, c)], s)
  {
    var ps, x, k := [Triple(e, a, EVar(v))], Comparison(v, op, c), KindOfType(s.byIdent[a].valueType);
    FittingKind(c, s.byIdent[a].valueType);
    TripleVars(e, a, EVar(v));
    OnePatternKinds(e, a, EVar(v), s);
    OperatorNames();
    hide VarsOf, Name, Builtin, KindOfType, ConstFits, OccursAt, PatternOK, OneKind, VarKind, Askable;
    assert ArgOK(ps, s, x.args[0], k) && ArgOK(ps, s, x.args[1], k);
  }

  lemma {:induction false} HavingCompiles(e: Var, a: Bytes, c: Value, s: Schema, view: View)
    requires SchemaOK(s) && a in s.byIdent && Askable(c) && EncodeValue(c, s.byIdent[a].valueType).Ok?
    ensures Supported(Having(e, a, c), s, [], view) && OnlyComparisons(Having(e, a, c))
  {
    FittingKind(c, s.byIdent[a].valueType);
    HavingParts(e, a, c);
    TripleVars(e, a, EConst(c));
    OnePatternKinds(e, a, EConst(c), s);
    hide PatternsOf, ExprsOf, SimplesOf, NotsOf, VarsOf, KindOfType, ConstFits, OccursAt, BodyOK, SchemaOK, Askable;
    PlainQueries(Having(e, a, c), s, Triple(e, a, EConst(c)), [], view);
  }

  lemma {:induction false} ComparingCompiles(e: Var, a: Bytes, v: Var, op: string, c: Value, s: Schema, view: View)
    requires SchemaOK(s) && a in s.byIdent && Askable(c) && EncodeValue(c, s.byIdent[a].valueType).Ok? && Operator(op)
             && e != v
    ensures Supported(Comparing(e, a, v, op, c), s, [], view) && OnlyComparisons(Comparing(e, a, v, op, c))
  {
    ComparingParts(e, a, v, op, c);
    TripleVars(e, a, EVar(v));
    ComparisonOK(e, a, v, op, c, s);
    OperatorNames();
    hide PatternsOf, ExprsOf, SimplesOf, NotsOf, VarsOf, Name, Builtin, OccursAt, BodyOK, SchemaOK, Askable;
    PlainQueries(Comparing(e, a, v, op, c), s, Triple(e, a, EVar(v)), [Comparison(v, op, c)], view);
  }

  /** compileQuery compiles both queries. */
  lemma {:induction false} BothCompile(e: Var, a: Bytes, v: Var, op: string, c: Value, s: Schema, view: View)
    requires SchemaOK(s) && a in s.byIdent && Askable(c) && EncodeValue(c, s.byIdent[a].valueType).Ok? && Operator(op)
             && e != v
    ensures Supported(Having(e, a, c), s, [], view) && OnlyComparisons(Having(e, a, c))
    ensures Supported(Comparing(e, a, v, op, c), s, [], view) && OnlyComparisons(Comparing(e, a, v, op, c))
  {
    hide *;
    HavingCompiles(e, a, c, s, view);
    ComparingCompiles(e, a, v, op, c, s, view);
  }

  lemma {:induction false} MeansAnswers(q: Query, s: Schema, view: View, sql: SqlQuery, find: seq<FindMapping>,
                                        db: Db, out: seq<DVal>)
    requires Means(sql, find, q, s, [], view) && q.ins == [] && NotsOf(q.where) == []
             && RelationOK(s, RowsUnder(view, db))
    ensures StatementReturns(sql, find, db, out) <==> Answers(q, s, RowsUnder(view, db), db.udf, out)
  {
    NothingInWhere(q.where);
    hide StatementReturns, Answers, NotsOf, RelationOK, SubstWhere;
    assert SubstQuery(q, GivenOf(q.ins, [])) == q;
  }

  /** What compileQuery returns for [:find ?e :where [?e a c]] gives e exactly when some row
      it is about has entity e, the attribute, and the encoding of c. */
  lemma {:induction false} HavingReturns(e: Var, a: Bytes, c: Value, s: Schema, view: View, sql: SqlQuery,
                                         find: seq<FindMapping>, db: Db, n: int)
    requires Means(sql, find, Having(e, a, c), s, [], view) && Asking(a, c, s, RowsUnder(view, db))
    ensures StatementReturns(sql, find, db, [Plain(SInt(n))]) <==>
            exists r :: r in RowsUnder(view, db) && r.fact.e == n && r.fact.a == s.byIdent[a].id
                        && r.fact.v == EncodeValue(c, s.byIdent[a].valueType).value
  {
    HavingParts(e, a, c);
    MeansAnswers(Having(e, a, c), s, view, sql, find, db, [Plain(SInt(n))]);
    hide Means, StatementReturns, Answers, RowsUnder, EncodeValue;
    HavingHas(e, a, c, s, RowsUnder(view, db), db.udf, n);
  }

  lemma {:induction false} HavingHas(e: Var, a: Bytes, c: Value, s: Schema, rel: set<Row>,
                                     udf: (Bytes, seq<SqlVal>) -> bool, n: int)
    requires Asking(a, c, s, rel)
    ensures Answers(Having(e, a, c), s, rel, udf, [Plain(SInt(n))]) <==>
            exists r :: r in rel && r.fact.e == n && r.fact.a == s.byIdent[a].id
                        && r.fact.v == EncodeValue(c, s.byIdent[a].valueType).value
  {
    HavingAnswers(e, a, c, s, rel, udf, n);
    hide Answers, CellAt, Param, EncodeValue, Cmp, SqlEq, FiniteStored, Clean, Schema.Valid, Askable;
    forall r | r in rel && RowOf(s, a, r, n)
      ensures SqlEq(Cmp(CellAt(Triple(e, a, EConst(c)), s, ColV, r)), Param(c))
              <==> r.fact.v == EncodeValue(c, s.byIdent[a].valueType).value
    {
      ConstantMatches(e, a, c, s, r, n);
    }
  }

  /** Without a view: exactly when the fact is current. */
  lemma {:induction false} HavingIsCurrent(e: Var, a: Bytes, c: Value, s: Schema, t: Tables, view: View, sql: SqlQuery,
                                           find: seq<FindMapping>, db: Db, n: int)
    requires Means(sql, find, Having(e, a, c), s, [], view) && view.txID <= 0 && view.validTime.None?
    requires db.current == CurrentRows(t.current) && Asking(a, c, s, db.current)
    ensures StatementReturns(sql, find, db, [Plain(SInt(n))])
            <==> Fact(n, s.byIdent[a].id, EncodeValue(c, s.byIdent[a].valueType).value) in t.current
  {
    HavingReturns(e, a, c, s, view, sql, find, db, n);
    var f := Fact(n, s.byIdent[a].id, EncodeValue(c, s.byIdent[a].valueType).value);
    hide Means, StatementReturns, Asking, EncodeValue;
    if f in t.current {
      var cell := t.current[f];
      assert Row(f, cell.vtype, cell.cells, cell.tx, true, cell.validFrom) in db.current;
    }
  }

  /** Under a view of a valid time alone: exactly when the log has the fact asserted from a
      time no later than that. */
  lemma {:induction false} HavingWasValid(e: Var, a: Bytes, c: Value, s: Schema, view: View, sql: SqlQuery,
                                          find: seq<FindMapping>, db: Db, n: int)
    requires Means(sql, find, Having(e, a, c), s, [], view) && view.txID <= 0 && view.validTime.Some?
    requires Asking(a, c, s, RowsUnder(view, db))
    ensures var f := Fact(n, s.byIdent[a].id, EncodeValue(c, s.byIdent[a].valueType).value);
            StatementReturns(sql, find, db, [Plain(SInt(n))])
            <==> exists r :: r in db.datoms && r.added && r.fact == f && r.validFrom <= view.validTime.value
                             && view.validTime.value < 0x7FFF_FFFF_FFFF_FFFF
  {
    HavingReturns(e, a, c, s, view, sql, find, db, n);
    hide Means, StatementReturns, Asking, EncodeValue;
  }

  /** Under a view of a transaction: exactly when the log has the fact asserted by then and
      never retracted by then. */
  lemma {:induction false} HavingWasAsserted(e: Var, a: Bytes, c: Value, s: Schema, view: View, sql: SqlQuery,
                                             find: seq<FindMapping>, db: Db, n: int)
    requires Means(sql, find, Having(e, a, c), s, [], view) && view.txID > 0 && view.validTime.None?
    requires Asking(a, c, s, RowsUnder(view, db))
    ensures var f := Fact(n, s.byIdent[a].id, EncodeValue(c, s.byIdent[a].valueType).value);
            StatementReturns(sql, find, db, [Plain(SInt(n))])
            <==> (exists r :: r in db.datoms && r.added && r.fact == f && r.tx <= view.txID)
                 && forall r :: r in db.datoms && !r.added && r.fact == f ==> r.tx > view.txID
  {
    HavingReturns(e, a, c, s, view, sql, find, db, n);
    hide Means, StatementReturns, Asking, EncodeValue;
  }

  /** A row about n whose value is an integer in the relation to m. */
  predicate HasInt(s: Schema, a: Bytes, n: int, op: string, m: int, r: Row)
    requires a in s.byIdent && Operator(op)
  {
    && r.fact.e == n && r.fact.a == s.byIdent[a].id
    && match DecodeValue(r.fact.v, TInt)
       case Ok(VInt(k)) => Relates(op, k < m, k == m)
       case _ => false
  }

  lemma {:induction false} RowComparesInt(e: Var, a: Bytes, v: Var, op: string, m: i64, s: Schema,
                                          udf: (Bytes, seq<SqlVal>) -> bool, n: int, r: Row)
    requires s.Valid() && Clean(s, r) && a in s.byIdent && s.byIdent[a].valueType == TInt && Operator(op) && e != v
    ensures ComparingRow(e, a, v, op, VInt(m), s, udf, n, r) <==> HasInt(s, a, n, op, m, r)
  {
    hide CellAt, ExprHolds, Clean, Schema.Valid, Name, DecodeValue, WellFormed, Comparison;
    if RowOf(s, a, r, n) {
      PositionHolds(Triple(e, a, EVar(v)), a, s, r);
      DecodedInt(r.fact.v);
      var k := DecodeValue(r.fact.v, TInt).value.n;
      IntComparison(op, EVar(v), EConst(VInt(m)), k, m, map[v := Plain(SInt(k))], udf);
      assert Comparison(v, op, VInt(m))
        == Expr(Name(op), [EVar(v), EConst(VInt(m))]) by { ComparisonIs(v, op, VInt(m)); }
    }
  }

  lemma {:induction false} ComparisonIs(v: Var, op: string, c: Value)
    requires Operator(op)
    ensures Comparison(v, op, c) == Expr(Name(op), [EVar(v), EConst(c)])
  {
  }

  lemma {:induction false} DecodedInt(b: Bytes)
    ensures DecodeValue(b, TInt).Ok? ==> DecodeValue(b, TInt).value.VInt?
  {
  }

  /** What compileQuery returns for [:find ?e :where [?e a ?v] [(op ?v m)]] on an attribute of
      integers gives e exactly when some row it is about has entity e, the attribute, and
      decodes to an integer k with k op m. */
  lemma {:induction false} ComparingReturns(e: Var, a: Bytes, v: Var, op: string, m: i64, s: Schema, view: View,
                                            sql: SqlQuery,
                                            find: seq<FindMapping>, db: Db, n: int)
    requires Operator(op) && e != v
    requires Means(sql, find, Comparing(e, a, v, op, VInt(m)), s, [], view)
    requires Asking(a, VInt(m), s, RowsUnder(view, db)) && s.byIdent[a].valueType == TInt
    ensures StatementReturns(sql, find, db, [Plain(SInt(n))])
            <==> exists r :: r in RowsUnder(view, db) && HasInt(s, a, n, op, m, r)
  {
    ComparingParts(e, a, v, op, VInt(m));
    MeansAnswers(Comparing(e, a, v, op, VInt(m)), s, view, sql, find, db, [Plain(SInt(n))]);
    hide Means, StatementReturns, Answers, RowsUnder, HasInt, Comparing, SimplesOf, NotsOf, PatternsOf, ExprsOf, Name;
    ComparingHas(e, a, v, op, m, s, RowsUnder(view, db), db.udf, n);
  }

  lemma {:induction false} ComparingHas(e: Var, a: Bytes, v: Var, op: string, m: i64, s: Schema, rel: set<Row>,
                                        udf: (Bytes, seq<SqlVal>) -> bool, n: int)
    requires Operator(op) && e != v && Asking(a, VInt(m), s, rel) && s.byIdent[a].valueType == TInt
    ensures Answers(Comparing(e, a, v, op, VInt(m)), s, rel, udf, [Plain(SInt(n))])
            <==> exists r :: r in rel && HasInt(s, a, n, op, m, r)
  {
    var c := VInt(m);
    hide Answers, FiniteStored, Clean, Schema.Valid, Askable, Name, EncodeValue, ComparingRow, HasInt, Comparing;
    forall r | r in rel
      ensures ComparingRow(e, a, v, op, c, s, udf, n, r) <==> HasInt(s, a, n, op, m, r)
    {
      RowComparesInt(e, a, v, op, m, s, udf, n, r);
    }
    if Answers(Comparing(e, a, v, op, c), s, rel, udf, [Plain(SInt(n))]) {
      var r := AnswerGivesRow(e, a, v, op, c, s, rel, udf, n);
    }
    if r :| r in rel && HasInt(s, a, n, op, m, r) {
      RowGivesAnswer(e, a, v, op, c, s, rel, udf, n, r);
    }
  }

  /** A reference equals the entity it names and no other. */
  lemma {:induction false} ReferenceNames(p: Pattern, a: Bytes, p': Pattern, s: Schema, r: Row, r': Row, n: i64)
    requires s.Valid() && Clean(s, r) && RowOf(s, a, r, r.fact.e) && p.a == EConst(VString(a))
    requires s.byIdent[a].valueType == TRef && DecodeValue(r.fact.v, TRef) == Ok(VInt(n))
    ensures CellAt(p, s, ColV, r) == CellAt(p', s, ColE, r') <==> r'.fact.e == n
  {
    PositionHolds(p, a, s, r);
    hide Stored, DecodeValue;
  }

  // ---------------------------------------------------------------------
  // An input in the value position
  // ---------------------------------------------------------------------

  /** [:find ?e :in ?x :where [?e a ?x]] */
  function HavingInput(e: Var, a: Bytes, x: Var): Query {
    Query([e], [CSimple(SPattern(Triple(e, a, EVar(x))))], [x])
  }

  lemma {:induction false} InputReplaced(e: Var, a: Bytes, x: Var, c: Value)
    requires e != x
    ensures SubstQuery(HavingInput(e, a, x), GivenOf([x], [c])) == Having(e, a, c)
  {
    var g := GivenOf([x], [c]);
    GivenKeys([x], [c]);
    GivenAt([x], [c], 0);
    assert g == map[x := c];
    var where := HavingInput(e, a, x).where;
    assert where[..0] == [] && SubstWhere([], g) == [];
    assert SubstWhere(where, g) == [] + [CSimple(SubstSimple(where[0].s, g))];
  }

  lemma {:induction false} InputParts(e: Var, a: Bytes, x: Var)
    ensures var w := HavingInput(e, a, x).where;
            && PatternsOf(SimplesOf(w)) == [Triple(e, a, EVar(x))] && ExprsOf(SimplesOf(w)) == [] && NotsOf(w) == []
  {
    var w := HavingInput(e, a, x).where;
    hide PatternsOf, ExprsOf, SimplesOf, NotsOf;
    NoSimples();
    SimplesSnoc([], w[0]);
    PartsSnoc([], w[0].s);
    assert [] + [w[0]] == w && [] + [w[0].s] == [w[0].s];
  }

  /** The query with an input compiles, and with the argument c it returns what the query
      returns that has c in its place. */
  lemma {:induction false} InputCompiles(e: Var, a: Bytes, x: Var, c: Value, s: Schema, view: View)
    requires SchemaOK(s) && a in s.byIdent && Askable(c) && EncodeValue(c, s.byIdent[a].valueType).Ok? && e != x
    ensures Supported(HavingInput(e, a, x), s, [c], view) && OnlyComparisons(HavingInput(e, a, x))
  {
    FittingKind(c, s.byIdent[a].valueType);
    InputParts(e, a, x);
    TripleVars(e, a, EVar(x));
    OnePatternKinds(e, a, EVar(x), s);
    var ps := [Triple(e, a, EVar(x))];
    hide PatternsOf, ExprsOf, SimplesOf, NotsOf, VarsOf, KindOfType, ConstFits, BodyOK, SchemaOK, Askable, GivenOf;
    assert InputOK(ps, [], s, x, c);
  }

  lemma {:induction false} InputReturns(e: Var, a: Bytes, x: Var, c: Value, s: Schema, view: View, sql: SqlQuery,
                                        find: seq<FindMapping>, db: Db, n: int)
    requires e != x && Means(sql, find, HavingInput(e, a, x), s, [c], view) && Asking(a, c, s, RowsUnder(view, db))
    ensures StatementReturns(sql, find, db, [Plain(SInt(n))]) <==>
            exists r :: r in RowsUnder(view, db) && r.fact.e == n && r.fact.a == s.byIdent[a].id
                        && r.fact.v == EncodeValue(c, s.byIdent[a].valueType).value
  {
    InputReplaced(e, a, x, c);
    InputParts(e, a, x);
    HavingParts(e, a, c);
    hide StatementReturns, Answers, NotsOf, RelationOK, SubstWhere, SimplesOf, RowsUnder, Askable, EncodeValue, GivenOf,
      SubstQuery, SchemaOK, FiniteStored;
    assert DataOK(HavingInput(e, a, x), s, RowsUnder(view, db));
    HavingHas(e, a, c, s, RowsUnder(view, db), db.udf, n);
  }

  // ---------------------------------------------------------------------
  // An input in a comparison
  // ---------------------------------------------------------------------

  /** [:find ?e :in ?x :where [?e a ?v] [(op ?v ?x)]] */
  function ComparingInput(e: Var, a: Bytes, v: Var, op: string, x: Var): Query
    requires Operator(op)
  {
    Query([e], [CSimple(SPattern(Triple(e, a, EVar(v)))), CSimple(SExpr(Expr(Name(op), [EVar(v), EVar(x)])))], [x])
  }

  lemma {:induction false} TwoReplaced(s1: Simple, s2: Simple, g: Given)
    ensures SubstWhere([CSimple(s1), CSimple(s2)], g) == [CSimple(SubstSimple(s1, g)), CSimple(SubstSimple(s2, g))]
  {
    var c1, c2 := CSimple(s1), CSimple(s2);
    hide SubstSimple;
    assert [c1, c2][..1] == [c1] && [c1][..0] == [];
    assert SubstWhere([], g) == [];
    assert SubstWhere([c1], g) == [] + [CSimple(SubstSimple(s1, g))];
    assert SubstWhere([c1, c2], g) == SubstWhere([c1], g) + [CSimple(SubstSimple(s2, g))];
  }

  lemma {:induction false} ComparedReplaced(e: Var, a: Bytes, v: Var, op: string, x: Var, c: Value)
    requires Operator(op) && e != x && v != x
    ensures SubstQuery(ComparingInput(e, a, v, op, x), GivenOf([x], [c])) == Comparing(e, a, v, op, c)
  {
    var g, y := GivenOf([x], [c]), Expr(Name(op), [EVar(v), EVar(x)]);
    GivenKeys([x], [c]);
    GivenAt([x], [c], 0);
    assert g == map[x := c];
    hide GivenOf, SubstWhere, Name;
    TwoReplaced(SPattern(Triple(e, a, EVar(v))), SExpr(y), g);
    assert SubstPattern(Triple(e, a, EVar(v)), g) == Triple(e, a, EVar(v));
    assert SubstElems(y.args, g) == [EVar(v), EConst(c)];
  }

  lemma {:induction false} ComparingInputParts(e: Var, a: Bytes, v: Var, op: string, x: Var)
    requires Operator(op)
    ensures var w := ComparingInput(e, a, v, op, x).where;
            && PatternsOf(SimplesOf(w)) == [Triple(e, a, EVar(v))]
            && ExprsOf(SimplesOf(w)) == [Expr(Name(op), [EVar(v), EVar(x)])] && NotsOf(w) == []
  {
    var p, y := Triple(e, a, EVar(v)), Expr(Name(op), [EVar(v), EVar(x)]);
    hide Triple, Name, PatternsOf, ExprsOf, SimplesOf, NotsOf;
    TwoSimples(SPattern(p), SExpr(y));
    PatternThenExpr(p, y);
  }

  lemma {:induction false} ComparingInputCompiles(e: Var, a: Bytes, v: Var, op: string, x: Var, m: i64, s: Schema,
                                                  view: View)
    requires SchemaOK(s) && a in s.byIdent && s.byIdent[a].valueType == TInt && Operator(op) && e != v && e != x
             && v != x
    ensures Supported(ComparingInput(e, a, v, op, x), s, [VInt(m)], view)
            && OnlyComparisons(ComparingInput(e, a, v, op, x))
  {
    var p, y, c := Triple(e, a, EVar(v)), Expr(Name(op), [EVar(v), EVar(x)]), VInt(m);
    assert ComparingInput(e, a, v, op, x).ins == [x] && ComparingInput(e, a, v, op, x).find == [e];
    hide *;
    ComparingInputParts(e, a, v, op, x);
    TripleVars(e, a, EVar(v));
    IntAskable(m, s, a);
    ComparisonOK(e, a, v, op, c, s);
    ExprReplaced(v, op, x, c);
    ComparedInputOK(e, a, v, op, x, m, s);
    InputQueries(ComparingInput(e, a, v, op, x), s, p, [y], x, c, view);
    BuiltinOperator(op);
    NamedOnly(ComparingInput(e, a, v, op, x), y);
  }

  lemma {:induction false} IntAskable(m: i64, s: Schema, a: Bytes)
    requires a in s.byIdent && s.byIdent[a].valueType == TInt
    ensures Askable(VInt(m)) && EncodeValue(VInt(m), s.byIdent[a].valueType).Ok?
  {
  }

  lemma {:induction false} BuiltinOperator(op: string)
    requires Operator(op)
    ensures Builtin(Name(op)).Some?
  {
    OperatorNames();
    hide Name, Builtin;
  }

  lemma {:induction false} NamedOnly(q: Query, y: Expr)
    requires ExprsOf(SimplesOf(q.where)) == [y] && Builtin(y.fn).Some?
    ensures OnlyComparisons(q)
  {
    hide ExprsOf, SimplesOf, Builtin;
  }

  lemma {:induction false} InputQueries(q: Query, s: Schema, p: Pattern, xs: seq<Expr>, x: Var, c: Value, view: View)
    requires SchemaOK(s) && q.ins == [x] && PatternsOf(SimplesOf(q.where)) == [p] && ExprsOf(SimplesOf(q.where)) == xs
    requires NotsOf(q.where) == [] && forall y :: y in q.find ==> y in VarsOf([p]) && y != x
    requires BodyOK([p], SubstExprs(xs, GivenOf([x], [c])), s) && InputOK([p], xs, s, x, c)
    ensures Supported(q, s, [c], view)
  {
    hide PatternsOf, ExprsOf, SimplesOf, NotsOf, VarsOf, BodyOK, SubstExprs, GivenOf, InputOK, SchemaOK;
  }

  lemma {:induction false} ExprReplaced(v: Var, op: string, x: Var, c: Value)
    requires Operator(op) && v != x
    ensures SubstExprs([Expr(Name(op), [EVar(v), EVar(x)])], GivenOf([x], [c])) == [Comparison(v, op, c)]
  {
    var g, y := GivenOf([x], [c]), Expr(Name(op), [EVar(v), EVar(x)]);
    hide GivenOf, Name, SubstExprs;
    GivenKeys([x], [c]);
    GivenAt([x], [c], 0);
    assert SubstElems(y.args, g) == [EVar(v), EConst(c)];
    assert SubstExprs([y], g)[0] == SubstExpr(y, g);
  }

  lemma {:induction false} ComparedInputOK(e: Var, a: Bytes, v: Var, op: string, x: Var, m: i64, s: Schema)
    requires a in s.byIdent && s.byIdent[a].valueType == TInt && Operator(op) && e != x && v != x
    ensures InputOK([Triple(e, a, EVar(v))], [Expr(Name(op), [EVar(v), EVar(x)])], s, x, VInt(m))
  {
    hide Name;
    TripleVars(e, a, EVar(v));
    var ps := [Triple(e, a, EVar(v))];
    assert PatType(ps[0], s) == Some(TInt);
    assert TypesFrom(ps, s, map[]) == map[v := TInt] by {
      assert ps[..0] == [] && TypesFrom([], s, map[]) == map[];
    }
    hide TypesFrom, OccursAt;
    var xs := [Expr(Name(op), [EVar(v), EVar(x)])];
    assert xs[0].args[1] == EVar(x) && UsedAt(xs, x, 0, 1) && UsedIn(xs, x);
    assert BytesFit(xs[0], TypesFrom(ps, s, map[]), VInt(m));
  }

  /** With the argument m it returns what the query returns that has m in its place. */
  lemma {:induction false} ComparingInputReturns(e: Var, a: Bytes, v: Var, op: string, x: Var, m: i64, s: Schema,
                                                 view: View, sql: SqlQuery, find: seq<FindMapping>, db: Db, n: int)
    requires Operator(op) && e != v && e != x && v != x
    requires Means(sql, find, ComparingInput(e, a, v, op, x), s, [VInt(m)], view)
    requires Asking(a, VInt(m), s, RowsUnder(view, db)) && s.byIdent[a].valueType == TInt
    ensures StatementReturns(sql, find, db, [Plain(SInt(n))])
            <==> exists r :: r in RowsUnder(view, db) && HasInt(s, a, n, op, m, r)
  {
    ComparedReplaced(e, a, v, op, x, VInt(m));
    ComparingInputParts(e, a, v, op, x);
    hide StatementReturns, Answers, NotsOf, RelationOK, SubstWhere, SimplesOf, PatternsOf, ExprsOf, RowsUnder, Askable,
      EncodeValue, GivenOf, SubstQuery, SchemaOK, FiniteStored, Name, Comparing, HasInt;
    assert DataOK(ComparingInput(e, a, v, op, x), s, RowsUnder(view, db));
    ComparingHas(e, a, v, op, m, s, RowsUnder(view, db), db.udf, n);
  }
}
