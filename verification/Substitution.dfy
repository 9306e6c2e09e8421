/** Writing inputs into the algebraic form (bindInputArgs, query_api.go:201-308) and then
    translating it gives the answers of the query with every occurrence replaced. */
module Substitution {
  import opened Prelude
  import opened Values
  import opened Store
  import opened Sql
  import opened Datalog
  import opened Algebra
  import opened Places
  import opened Placeholders
  import opened Shapes
  import opened Compiler
  import opened Negation
  import opened Correctness
  import opened Inputs

  // ---------------------------------------------------------------------
  // Two cells that equal one constant are equal
  // ---------------------------------------------------------------------

  lemma {:induction false} Pow2Sum(j: nat, k: nat)
    ensures Pow2(j + k) == Pow2(j) * Pow2(k)
  {
    if j != 0 {
      Pow2Sum(j - 1, k);
      assert Pow2(j + k) == 2 * Pow2(j - 1 + k);
      assert 2 * (Pow2(j - 1) * Pow2(k)) == (2 * Pow2(j - 1)) * Pow2(k);
    }
  }

  lemma {:induction false} Scale(a: int, b: int, p: int, q: int)
    ensures a * p == b ==> a * (p * q) == b * q
    ensures q != 0 && a * (p * q) == b * q ==> a * p == b
  {
    assert a * (p * q) == (a * p) * q;
  }

  lemma {:induction false} ScaledIs(x: u64)
    requires !IsInfinite(x) && !IsNaN(x)
    ensures Scaled(x) == SignedSignificand(x) * Pow2(Binade(x) - 1)
  {
    hide Pow2;
    assert Pow2(0) == 1 by { PowZero(); }
    Fields(x);
    hide Exponent, Fraction;
    var m: int, p := Significand(x), Pow2(Binade(x) - 1);
    assert Magnitude(x) == m * p;
    assert (-m) * p == -(m * p);
  }

  lemma {:induction false} PowZero()
    ensures Pow2(0) == 1
  {
  }

  /** A float equals an integer exactly when their multiples of 2^1074 are equal. */
  lemma {:induction false} IntEqualsReal(n: int, x: u64)
    requires !IsInfinite(x) && !IsNaN(x)
    ensures IntMinusReal(n, x) == 0 <==> Scaled(x) == n * Pow2(1074)
  {
    ScaledIs(x);
    Fields(x);
    var b, s := Binade(x), SignedSignificand(x);
    hide Binade, SignedSignificand, Pow2, Scaled, IsInfinite, IsNaN;
    if b <= 1075 {
      Pow2Sum(1075 - b, b - 1);
      Scale(n, s, Pow2(1075 - b), Pow2(b - 1));
    } else {
      Pow2Sum(b - 1075, 1074);
      Scale(s, n, Pow2(b - 1075), Pow2(1074));
    }
  }

  lemma {:induction false} RealsEqualConst(x: u64, y: u64, c: SqlVal)
    requires !IsNaN(x) && !IsNaN(y) && (c.SInt? || (c.SReal? && !IsNaN(c.bits)))
    requires SqlEq(SReal(x), c) && SqlEq(SReal(y), c)
    ensures NumEqual(x, y)
  {
    hide Scaled, IsInfinite, IsNaN, IntMinusReal, Pow2;
    if c.SInt? {
      IntEqualsReal(c.n, x);
      IntEqualsReal(c.n, y);
    }
  }

  lemma {:induction false} RealParam(v: Value)
    requires ConstFits(v, KReal) && Param(v) != SNull
    ensures var c := Param(v); c.SInt? || (c.SReal? && !IsNaN(c.bits))
  {
    Fields(0);
    hide Exponent, Fraction;
  }

  lemma {:induction false} EqualToConst(k: Kind, d: DVal, e: DVal, v: Value)
    requires HasKind(d, k) && HasKind(e, k) && ConstFits(v, k)
    requires SqlEq(Cmp(d), Param(v)) && SqlEq(Cmp(e), Param(v))
    ensures d == e
  {
    if k == KReal {
      hide NumEqual, IsNaN, IsZero, IntMinusReal, IsInfinite;
      RealParam(v);
      RealsEqualConst(d.v.bits, e.v.bits, Param(v));
      NumOrder(d.v.bits, e.v.bits);
      hide NumLess;
    }
  }

  // ---------------------------------------------------------------------
  // Patterns with inputs placed, and with inputs substituted
  // ---------------------------------------------------------------------

  ghost predicate GivenFits(ps: seq<Pattern>, s: Schema, g: Given) {
    forall x, i, col :: x in g && StandsAt(ps, x, i, col) ==> col != ColA && ConstFits(g[x], KindAt(ps[i], s, col))
  }

  predicate ElemMatch(p: Pattern, s: Schema, col: Column, el: Elem, r: Row) {
    Bound(el) ==> SqlEq(Cmp(CellAt(p, s, col, r)), Param(el.c))
  }

  predicate AttrMatch(p: Pattern, s: Schema, r: Row) {
    Bound(p.a) ==> p.a.c.VString? && p.a.c.s in s.byIdent && r.fact.a == s.byIdent[p.a.c.s].id
  }

  /** A pattern matches a row position by position. */
  lemma {:induction false} MatchSplits(p: Pattern, q: Pattern, s: Schema, r: Row)
    requires q.a == p.a
    ensures ConstsMatch(q, s, r)
            <==> AttrMatch(p, s, r) && ElemMatch(p, s, ColE, q.e, r) && ElemMatch(p, s, ColV, q.v, r)
                 && ElemMatch(p, s, ColTx, q.tx, r)
  {
    hide SqlEq, Param, Stored;
    assert PatType(q, s) == PatType(p, s);
  }

  ghost predicate PlacedMatch(ps: seq<Pattern>, s: Schema, g: Given, rows: seq<Row>)
    requires |rows| == |ps|
  {
    forall i :: 0 <= i < |ps| ==> ConstsMatch(Placed(ps, i, g), s, rows[i])
  }

  lemma {:induction false} SubstStands(ps: seq<Pattern>, g: Given, x: Var, i: int, col: Column)
    ensures StandsAt(SubstPatterns(ps, g), x, i, col) <==> StandsAt(ps, x, i, col) && x !in g
  {
  }

  lemma {:induction false} SubstLocs(ps: seq<Pattern>, g: Given, x: Var)
    requires x !in g
    ensures LocsFrom(SubstPatterns(ps, g), x) == LocsFrom(ps, x)
  {
    if ps != [] {
      var n := |ps| - 1;
      assert SubstPatterns(ps, g)[..n] == SubstPatterns(ps[..n], g);
      SubstLocs(ps[..n], g, x);
      assert PatLocs(n, SubstPattern(ps[n], g), x) == PatLocs(n, ps[n], x);
    }
  }

  /** Inputs do not stand in attribute positions. */
  lemma {:induction false} SubstAttr(ps: seq<Pattern>, s: Schema, g: Given, i: int)
    requires GivenFits(ps, s, g) && 0 <= i < |ps|
    ensures SubstPattern(ps[i], g).a == ps[i].a
  {
    hide ConstFits, KindAt;
    if ps[i].a.EVar? {
      assert ps[i].a.x in g ==> StandsAt(ps, ps[i].a.x, i, ColA);
    }
  }

  lemma {:induction false} SubstCell(ps: seq<Pattern>, s: Schema, g: Given, i: int, col: Column, r: Row)
    requires GivenFits(ps, s, g) && 0 <= i < |ps|
    ensures CellAt(SubstPatterns(ps, g)[i], s, col, r) == CellAt(ps[i], s, col, r)
  {
    hide GivenFits;
    SubstAttr(ps, s, g, i);
  }

  lemma {:induction false} SubstFirst(ps: seq<Pattern>, s: Schema, g: Given, rows: seq<Row>, x: Var)
    requires GivenFits(ps, s, g) && |rows| == |ps| && x !in g
    ensures FirstCell(SubstPatterns(ps, g), s, rows, x) == FirstCell(ps, s, rows, x)
  {
    hide GivenFits, CellAt, LocsFrom;
    SubstLocs(ps, g, x);
    PlacesOfVar(ps, x);
    if LocsFrom(ps, x) != [] {
      var l := LocsFrom(ps, x)[0];
      SubstCell(ps, s, g, l.table, l.col, rows[l.table]);
    }
  }

  /** Trimmed to the variables that are not inputs. */
  function Trimmed(sigma: Assignment, g: Given): Assignment {
    map x | x in sigma && x !in g :: sigma[x]
  }

  lemma {:induction false} SubstVars(ps: seq<Pattern>, g: Given)
    ensures VarsOf(SubstPatterns(ps, g)) == VarsOf(ps) - g.Keys
  {
    var ps' := SubstPatterns(ps, g);
    forall x ensures x in VarsOf(ps') <==> x in VarsOf(ps) - g.Keys {
      VarsOfIff(ps, x);
      VarsOfIff(ps', x);
      hide VarsOf;
      forall i, col ensures StandsAt(ps', x, i, col) <==> StandsAt(ps, x, i, col) && x !in g {
        SubstStands(ps, g, x, i, col);
      }
      hide OccursAt;
      if x in VarsOf(ps') {
        var i, col :| 0 <= i < |ps'| && OccursAt(ps'[i], x, col);
        assert StandsAt(ps', x, i, col);
      }
      if x in VarsOf(ps) - g.Keys {
        var i, col :| 0 <= i < |ps| && OccursAt(ps[i], x, col);
        assert StandsAt(ps, x, i, col);
      }
    }
  }

  lemma {:induction false} SubstAssignment(ps: seq<Pattern>, s: Schema, g: Given, rows: seq<Row>)
    requires GivenFits(ps, s, g) && |rows| == |ps|
    ensures AssignmentOf(SubstPatterns(ps, g), s, rows) == Trimmed(AssignmentOf(ps, s, rows), g)
  {
    hide GivenFits, FirstCell, VarsOf;
    SubstVars(ps, g);
    forall x | x in VarsOf(ps) && x !in g
      ensures FirstCell(SubstPatterns(ps, g), s, rows, x) == FirstCell(ps, s, rows, x) {
      SubstFirst(ps, s, g, rows, x);
    }
  }

  ghost predicate RowsClean(ps: seq<Pattern>, s: Schema, rows: seq<Row>) {
    |rows| == |ps| && s.Valid() && (forall r :: r in rows ==> Clean(s, r)) && AllOfAttr(ps, s, rows)
  }

  lemma {:induction false} CellHasKind(ps: seq<Pattern>, s: Schema, rows: seq<Row>, x: Var, i: int, col: Column)
    requires |rows| == |ps| && RowsClean(ps, s, rows) && StandsAt(ps, x, i, col)
    ensures HasKind(CellIn(ps, s, rows, Loc(i, col)), KindAt(ps[i], s, col))
  {
    hide Clean, CellAt, HasKind, KindAt, Schema.Valid;
    assert rows[i] in rows;
    CellOfPlace(ps[i], s, col, rows[i]);
  }

  /** All places of an input hold one value, if each equals it. */
  lemma {:induction false} InputCellsEqual(ps: seq<Pattern>, s: Schema, g: Given, rows: seq<Row>, x: Var, l: Loc,
                                           m: Loc)
    requires |rows| == |ps| && OneKind(ps, s) && GivenFits(ps, s, g) && RowsClean(ps, s, rows) && x in g
    requires StandsAt(ps, x, l.table, l.col) && StandsAt(ps, x, m.table, m.col)
    requires SqlEq(Cmp(CellIn(ps, s, rows, l)), Param(g[x])) && SqlEq(Cmp(CellIn(ps, s, rows, m)), Param(g[x]))
    ensures CellIn(ps, s, rows, l) == CellIn(ps, s, rows, m)
  {
    hide RowsClean, HasKind, ConstFits, Cmp, SqlEq, Param, CellAt;
    assert KindAt(ps[l.table], s, l.col) == KindAt(ps[m.table], s, m.col);
    hide KindAt;
    CellHasKind(ps, s, rows, x, l.table, l.col);
    CellHasKind(ps, s, rows, x, m.table, m.col);
    EqualToConst(KindAt(ps[l.table], s, l.col), CellIn(ps, s, rows, l), CellIn(ps, s, rows, m), g[x]);
  }

  /** What the place where an input was written says. */
  lemma {:induction false} PlacedInput(ps: seq<Pattern>, s: Schema, g: Given, rows: seq<Row>, x: Var, i: int,
                                       col: Column)
    requires GivenFits(ps, s, g) && |rows| == |ps| && PlacedMatch(ps, s, g, rows) && x in g && StandsAt(ps, x, i, col)
    ensures InputPlace(ps, x).Some?
    ensures var l := InputPlace(ps, x).value;
            && StandsAt(ps, x, l.table, l.col)
            && SqlEq(Cmp(CellIn(ps, s, rows, l)), Param(g[x]))
  {
    PlaceOfInput(ps, x);
    var l := InputPlace(ps, x).value;
    assert ConstFits(g[x], KindAt(ps[l.table], s, l.col)) && ConstsMatch(Placed(ps, l.table, g), s, rows[l.table]);
    hide InputPlace, ConstsMatch, CellAt, SqlEq, KindAt;
    MatchSplits(ps[l.table], Placed(ps, l.table, g), s, rows[l.table]);
  }

  lemma {:induction false} SubstElemMatch(ps: seq<Pattern>, s: Schema, g: Given, rows: seq<Row>, i: int, col: Column)
    requires OneKind(ps, s) && GivenFits(ps, s, g) && |rows| == |ps|
    requires PlacedMatch(ps, s, g, rows) && RowsJoin(ps, s, rows)
    requires 0 <= i < |ps| && (col == ColE || col == ColV || col == ColTx)
    requires ElemMatch(ps[i], s, col, ElemAt(ps[i], col), rows[i])
    ensures ElemMatch(ps[i], s, col, SubstElem(ElemAt(ps[i], col), g), rows[i])
  {
    hide PlacedMatch, GivenFits, OneKind, CellAt, SqlEq, Param;
    var el := ElemAt(ps[i], col);
    if el.EVar? && el.x in g {
      assert StandsAt(ps, el.x, i, col);
      PlacedInput(ps, s, g, rows, el.x, i, col);
      var l := InputPlace(ps, el.x).value;
      hide InputPlace, FirstCell;
      assert CellIn(ps, s, rows, Loc(l.table, l.col)) == CellIn(ps, s, rows, Loc(i, col));
    }
  }

  lemma {:induction false} PlacedKeepsConsts(ps: seq<Pattern>, s: Schema, g: Given, i: int, col: Column, r: Row)
    requires 0 <= i < |ps| && (col == ColE || col == ColV || col == ColTx)
    requires ElemMatch(ps[i], s, col, ElemAt(Placed(ps, i, g), col), r)
    ensures ElemMatch(ps[i], s, col, ElemAt(ps[i], col), r)
  {
    hide InputPlace, SqlEq, CellAt;
  }

  lemma {:induction false} SubstImpliesPlaced(ps: seq<Pattern>, s: Schema, g: Given, i: int, col: Column, r: Row)
    requires 0 <= i < |ps| && (col == ColE || col == ColV || col == ColTx)
    requires ElemMatch(ps[i], s, col, SubstElem(ElemAt(ps[i], col), g), r)
    ensures ElemMatch(ps[i], s, col, ElemAt(Placed(ps, i, g), col), r)
  {
    hide InputPlace, SqlEq, CellAt;
  }

  /** Matching where the inputs were placed, and joining, is matching everywhere. */
  lemma {:induction false} PlacedIsSubst(ps: seq<Pattern>, s: Schema, g: Given, rows: seq<Row>)
    requires OneKind(ps, s) && GivenFits(ps, s, g) && |rows| == |ps|
    requires PlacedMatch(ps, s, g, rows) && RowsJoin(ps, s, rows)
    ensures AllMatch(SubstPatterns(ps, g), s, rows) && RowsJoin(SubstPatterns(ps, g), s, rows)
  {
    hide OneKind, GivenFits, ConstsMatch, FirstCell, CellAt, ElemMatch, SubstElem, Placed;
    var ps' := SubstPatterns(ps, g);
    forall i | 0 <= i < |ps| ensures ConstsMatch(ps'[i], s, rows[i]) {
      SubstAttr(ps, s, g, i);
      assert ConstsMatch(Placed(ps, i, g), s, rows[i]) && Placed(ps, i, g).a == ps[i].a by { PlacedAttr(ps, i, g); }
      MatchSplits(ps[i], Placed(ps, i, g), s, rows[i]);
      MatchSplits(ps[i], SubstPattern(ps[i], g), s, rows[i]);
      hide PlacedMatch, RowsJoin, AttrMatch;
      PlacedKeepsConsts(ps, s, g, i, ColE, rows[i]);
      PlacedKeepsConsts(ps, s, g, i, ColV, rows[i]);
      PlacedKeepsConsts(ps, s, g, i, ColTx, rows[i]);
      SubstElemMatch(ps, s, g, rows, i, ColE);
      SubstElemMatch(ps, s, g, rows, i, ColV);
      SubstElemMatch(ps, s, g, rows, i, ColTx);
    }
    forall x, i, col | StandsAt(ps', x, i, col)
      ensures CellIn(ps', s, rows, Loc(i, col)) == FirstCell(ps', s, rows, x) {
      SubstStands(ps, g, x, i, col);
      SubstCell(ps, s, g, i, col, rows[i]);
      SubstFirst(ps, s, g, rows, x);
    }
  }

  lemma {:induction false} PlacedAttr(ps: seq<Pattern>, i: int, g: Given)
    requires 0 <= i < |ps|
    ensures Placed(ps, i, g).a == ps[i].a
  {
  }

  lemma {:induction false} SubstCellEquals(ps: seq<Pattern>, s: Schema, g: Given, rows: seq<Row>, x: Var, i: int,
                                           col: Column)
    requires GivenFits(ps, s, g) && |rows| == |ps| && AllMatch(SubstPatterns(ps, g), s, rows)
    requires x in g && StandsAt(ps, x, i, col)
    ensures SqlEq(Cmp(CellIn(ps, s, rows, Loc(i, col))), Param(g[x]))
  {
    assert ConstsMatch(SubstPattern(ps[i], g), s, rows[i]);
    assert col != ColA && ConstFits(g[x], KindAt(ps[i], s, col));
    SubstAttr(ps, s, g, i);
    hide GivenFits, ConstsMatch, CellAt, SqlEq, KindAt, AllMatch;
    MatchSplits(ps[i], SubstPattern(ps[i], g), s, rows[i]);
  }

  lemma {:induction false} SubstIsPlaced(ps: seq<Pattern>, s: Schema, g: Given, rows: seq<Row>)
    requires |rows| == |ps| && OneKind(ps, s) && GivenFits(ps, s, g) && RowsClean(ps, s, rows)
    requires AllMatch(SubstPatterns(ps, g), s, rows) && RowsJoin(SubstPatterns(ps, g), s, rows)
    ensures PlacedMatch(ps, s, g, rows) && RowsJoin(ps, s, rows)
  {
    hide OneKind, GivenFits, ConstsMatch, FirstCell, CellAt, ElemMatch, SubstElem, Placed, RowsClean;
    var ps' := SubstPatterns(ps, g);
    forall i | 0 <= i < |ps| ensures ConstsMatch(Placed(ps, i, g), s, rows[i]) {
      SubstAttr(ps, s, g, i);
      PlacedAttr(ps, i, g);
      assert ConstsMatch(ps'[i], s, rows[i]);
      MatchSplits(ps[i], Placed(ps, i, g), s, rows[i]);
      MatchSplits(ps[i], SubstPattern(ps[i], g), s, rows[i]);
      hide RowsJoin, AttrMatch;
      SubstImpliesPlaced(ps, s, g, i, ColE, rows[i]);
      SubstImpliesPlaced(ps, s, g, i, ColV, rows[i]);
      SubstImpliesPlaced(ps, s, g, i, ColTx, rows[i]);
    }
    forall x, i, col | StandsAt(ps, x, i, col) ensures CellIn(ps, s, rows, Loc(i, col)) == FirstCell(ps, s, rows, x) {
      JoinFromSubst(ps, s, g, rows, x, i, col);
    }
  }

  lemma {:induction false} JoinFromSubst(ps: seq<Pattern>, s: Schema, g: Given, rows: seq<Row>, x: Var, i: int,
                                         col: Column)
    requires |rows| == |ps| && OneKind(ps, s) && GivenFits(ps, s, g) && RowsClean(ps, s, rows)
             && StandsAt(ps, x, i, col)
    requires AllMatch(SubstPatterns(ps, g), s, rows) && RowsJoin(SubstPatterns(ps, g), s, rows)
    ensures CellIn(ps, s, rows, Loc(i, col)) == FirstCell(ps, s, rows, x)
  {
    if x in g {
      hide OneKind, GivenFits, CellAt, RowsClean, AllMatch, RowsJoin, SqlEq, LocsFrom, VarsOf;
      PlaceIff(ps, x, Loc(i, col));
      PlacesOfVar(ps, x);
      FirstIsFirst(ps, s, rows, x);
      var l := LocsFrom(ps, x)[0];
      assert StandsAt(ps, x, l.table, l.col);
      SubstCellEquals(ps, s, g, rows, x, i, col);
      SubstCellEquals(ps, s, g, rows, x, l.table, l.col);
      InputCellsEqual(ps, s, g, rows, x, Loc(i, col), Loc(l.table, l.col));
    } else {
      hide OneKind, GivenFits, CellAt, RowsClean, AllMatch, FirstCell;
      SubstStands(ps, g, x, i, col);
      SubstCell(ps, s, g, i, col, rows[i]);
      SubstFirst(ps, s, g, rows, x);
    }
  }

  // ---------------------------------------------------------------------
  // Expressions, negations and results see the same values
  // ---------------------------------------------------------------------

  lemma {:induction false} SubstExprHolds(x: Expr, g: Given, sigma: Assignment, udf: (Bytes, seq<SqlVal>) -> bool)
    ensures ExprHolds(SubstExpr(x, g), Trimmed(sigma, g), udf) <==> ExprHolds(SubstExpr(x, g), sigma, udf)
  {
    hide Compare, Cmp, Param;
    var els := SubstElems(x.args, g);
    assert forall i :: 0 <= i < |els| ==> ArgValue(els[i], Trimmed(sigma, g)) == ArgValue(els[i], sigma);
    assert ArgValues(els, Trimmed(sigma, g)) == ArgValues(els, sigma);
  }

  lemma {:induction false} TrimmedNotHolds(body: seq<Simple>, s: Schema, g: Given, sigma: Assignment, rel: set<Row>,
                                           udf: (Bytes, seq<SqlVal>) -> bool)
    requires forall x :: x in g ==> x !in VarsOf(PatternsOf(body))
    ensures NotHolds(body, s, Trimmed(sigma, g), rel, udf) <==> NotHolds(body, s, sigma, rel, udf)
  {
    hide VarsOf, PatternsOf, ExprsOf, BodyHolds;
    forall tau: Assignment | tau.Keys == VarsOf(PatternsOf(body))
      ensures Agree(Trimmed(sigma, g), tau) <==> Agree(sigma, tau) {
    }
  }

  lemma {:induction false} TrimmedProjects(find: seq<Var>, g: Given, sigma: Assignment, out: seq<DVal>)
    requires forall x :: x in find ==> x !in g
    ensures Projects(find, Trimmed(sigma, g), out) <==> Projects(find, sigma, out)
  {
  }

  // ---------------------------------------------------------------------
  // The bound query
  // ---------------------------------------------------------------------

  /** A query of patterns, expressions and correlating negations, whose inputs are used
      as InputOK says, are not results, and do not stand in negations. */
  ghost predicate InputsOK(q: Query, s: Schema, vs: seq<Value>) {
    var body := SimplesOf(q.where);
    var ps, xs := PatternsOf(body), ExprsOf(body);
    && |q.ins| <= |vs| && Distinct(q.ins)
    && (forall i :: 0 <= i < |q.ins| ==> InputOK(ps, xs, s, q.ins[i], vs[i]))
    && ps != [] && BodyOK(ps, SubstExprs(xs, GivenOf(q.ins, vs)), s)
    && InputsApart(q, ps, s)
  }

  /** Inputs are not results and do not stand in negations, which correlate. */
  ghost predicate InputsApart(q: Query, ps: seq<Pattern>, s: Schema) {
    && (forall x :: x in q.find ==> x in VarsOf(ps) && x !in q.ins)
    && (forall n :: n in NotsOf(q.where) ==> NotOK(ps, n, s) && forall x :: x in q.ins ==> x !in VarsOf(PatternsOf(n)))
  }

  lemma {:induction false} GivenAt(xs: seq<Var>, vs: seq<Value>, i: int)
    requires |xs| <= |vs| && Distinct(xs) && 0 <= i < |xs|
    ensures xs[i] in GivenOf(xs, vs) && GivenOf(xs, vs)[xs[i]] == vs[i]
    decreases |xs|
  {
    if i < |xs| - 1 {
      GivenAt(xs[..|xs| - 1], vs, i);
    }
  }

  lemma {:induction false} InputsFit(ps: seq<Pattern>, xs: seq<Expr>, s: Schema, ins: seq<Var>, vs: seq<Value>)
    requires |ins| <= |vs| && Distinct(ins) && forall i :: 0 <= i < |ins| ==> InputOK(ps, xs, s, ins[i], vs[i])
    ensures GivenFits(ps, s, GivenOf(ins, vs))
  {
    hide ConstFits, KindAt, VarsOf, UsedIn, BytesFit;
    var g := GivenOf(ins, vs);
    forall x, i, col | x in g && StandsAt(ps, x, i, col) ensures col != ColA && ConstFits(g[x], KindAt(ps[i], s, col)) {
      GivenKeys(ins, vs);
      var k :| 0 <= k < |ins| && ins[k] == x;
      GivenAt(ins, vs, k);
      VarsOfIff(ps, x);
    }
  }

  lemma {:induction false} PlacedOK(ps: seq<Pattern>, s: Schema, g: Given, i: int)
    requires GivenFits(ps, s, g) && 0 <= i < |ps| && PatternOK(ps[i], s)
    ensures PatternOK(Placed(ps, i, g), s)
  {
    PlacedElemOK(ps, s, g, i, ColE);
    PlacedElemOK(ps, s, g, i, ColV);
    PlacedElemOK(ps, s, g, i, ColTx);
    hide GivenFits, ConstFits, PlacedElem;
  }

  lemma {:induction false} PlacedElemOK(ps: seq<Pattern>, s: Schema, g: Given, i: int, col: Column)
    requires GivenFits(ps, s, g) && 0 <= i < |ps| && (col == ColE || col == ColV || col == ColTx)
    ensures var el := PlacedElem(ps, i, col, ElemAt(ps[i], col), g);
            el == ElemAt(ps[i], col) || (el.EConst? && ConstFits(el.c, KindAt(ps[i], s, col)))
  {
    hide ConstFits, KindAt, InputPlace;
    var el := ElemAt(ps[i], col);
    if el.EVar? && el.x in g {
      assert StandsAt(ps, el.x, i, col);
    }
  }

  lemma {:induction false} PlacedTableCloses(ps: seq<Pattern>, s: Schema, g: Given, i: int)
    requires GivenFits(ps, s, g) && 0 <= i < |ps| && PatternOK(ps[i], s)
    ensures PatternOK(Placed(ps, i, g), s)
            && ClosedTable(PlacedTable(ps, i, s, g)) == ClosedTable(TableFor(i, Placed(ps, i, g), s))
  {
    hide GivenFits, PatternOK, Placed, TableFor;
    PlacedOK(ps, s, g, i);
  }

  function PlacedPatterns(ps: seq<Pattern>, g: Given): (qs: seq<Pattern>)
    ensures |qs| == |ps| && forall i :: 0 <= i < |ps| ==> qs[i] == Placed(ps, i, g)
  {
    seq(|ps|, i requires 0 <= i < |ps| => Placed(ps, i, g))
  }

  lemma {:induction false} PlacedTablesMean(ps: seq<Pattern>, s: Schema, g: Given, rows: seq<Row>,
                                            tbs: seq<TableBinding>, env: Env, db: Db)
    requires SchemaOK(s) && GivenFits(ps, s, g) && forall p :: p in ps ==> PatternOK(p, s)
    requires |rows| == |ps| && (forall r :: r in rows ==> Clean(s, r)) && Sees(env, rows)
    requires |tbs| == |ps| && forall i :: 0 <= i < |ps| ==> tbs[i] == PlacedTable(ps, i, s, g)
    ensures AtomsHold(ClosedTables(tbs), env, db) <==> PlacedMatch(ps, s, g, rows)
  {
    hide SchemaOK, GivenFits, PatternOK, Clean, Sees, ConstsMatch, Placed, PlacedTable, TableFor, AtomsHold,
      ClosedTable, ClosedTables, PlacedPatterns, TablesFor;
    var qs := PlacedPatterns(ps, g);
    forall i | 0 <= i < |ps| ensures PatternOK(qs[i], s) && ClosedTable(tbs[i]) == ClosedTable(TablesFor(qs, s)[i]) {
      assert ps[i] in ps;
      PlacedTableCloses(ps, s, g, i);
    }
    SameTables(tbs, TablesFor(qs, s));
    TablesMean(qs, s, rows, env, db);
  }

  lemma {:induction false} PlacedShape(ps: seq<Pattern>, s: Schema, g: Given, tbs: seq<TableBinding>)
    requires |tbs| == |ps| && forall i :: 0 <= i < |ps| ==> tbs[i] == PlacedTable(ps, i, s, g)
    ensures SameShape(tbs, TablesFor(ps, s)) && Froms(tbs) == Froms(TablesFor(ps, s))
  {
    hide Placed;
    forall i | 0 <= i < |ps| ensures Placed(ps, i, g).a == ps[i].a {
      PlacedAttr(ps, i, g);
    }
    SameFroms(tbs, TablesFor(ps, s));
  }

  lemma {:induction false} SameFilterSameAtom(tbs: seq<TableBinding>, f: Filter, h: Filter)
    requires SameFilter(f, h)
    ensures ClosedFilter(tbs, f) == ClosedFilter(tbs, h)
  {
    hide ArgOperand, Param;
    assert forall j :: 0 <= j < |f.args|
             ==> SameArg(f.args[j], h.args[j]) && ClosedArg(tbs, f.args[j]) == ClosedArg(tbs, h.args[j]);
    assert ClosedArgs(tbs, f.args) == ClosedArgs(tbs, h.args);
  }

  lemma {:induction false} SameFiltersSameAtoms(tbs: seq<TableBinding>, fs: seq<Filter>, hs: seq<Filter>)
    requires SameFilters(fs, hs)
    ensures ClosedFilters(tbs, fs) == ClosedFilters(tbs, hs)
  {
    hide ClosedFilter, SameFilter;
    if fs != [] {
      SameFiltersSameAtoms(tbs, fs[..|fs| - 1], hs[..|hs| - 1]);
      SameFilterSameAtom(tbs, fs[|fs| - 1], hs[|hs| - 1]);
    }
  }

  ghost predicate Setting(ps: seq<Pattern>, xs: seq<Expr>, s: Schema, g: Given, rows: seq<Row>) {
    && SchemaOK(s) && BodyOK(ps, SubstExprs(xs, g), s) && GivenFits(ps, s, g)
    && |rows| == |ps| && (forall r :: r in rows ==> Clean(s, r))
  }

  /** The conditions of a bound body. */
  lemma {:induction false} BoundBodyMeans(ps: seq<Pattern>, xs: seq<Expr>, s: Schema, g: Given, rows: seq<Row>,
                                          env: Env, db: Db, b: Body)
    requires |rows| == |ps| && Setting(ps, xs, s, g, rows) && Sees(env, rows)
    requires IsBound(ps, xs, g.Keys, s, g, b) && (forall j :: j in b.joins <==> IsStarJoin(ps, j))
    ensures AtomsHold(ClosedBody(b, JoinAtoms(b.tables, b.joins)), env, db) <==>
      && PlacedMatch(ps, s, g, rows) && RowsJoin(ps, s, rows)
      && (forall x :: x in SubstExprs(xs, g) ==> ExprHolds(x, AssignmentOf(ps, s, rows), db.udf))
  {
    hide PatternOK, Clean, OneKind, ExprOK, ExprHolds, AtomsHold, Sees, PlacedMatch, RowsJoin, AssignmentOf,
      TypesFrom, TablesFor, Schema.Valid, IsStarJoin, PlacedTable, SameFilters, GivenFits, ResolvedFilters,
      SubstExprs, SameShape, Froms;
    var tbs, xs' := TablesFor(ps, s), SubstExprs(xs, g);
    var joins := JoinAtoms(b.tables, b.joins);
    assert g.Keys - g.Keys == {};
    AtomsConcat(ClosedTables(b.tables), joins, env, db);
    AtomsConcat(ClosedTables(b.tables) + joins, ClosedFilters(b.tables, b.filters), env, db);
    PlacedShape(ps, s, g, b.tables);
    SameJoins(b.tables, tbs, b.joins);
    SameClosedFilters(b.tables, tbs, b.filters);
    SameFiltersSameAtoms(tbs, b.filters, ResolvedFilters(ps, TypesFrom(ps, s, map[]), {}, xs'));
    hide JoinAtoms, ClosedFilters, ClosedTables;
    PlacedTablesMean(ps, s, g, rows, b.tables, env, db);
    if PlacedMatch(ps, s, g, rows) {
      PlacedOfAttr(ps, s, g, rows);
      JoinsMean(ps, s, rows, env, db, b.joins);
      FiltersMean(ps, s, rows, env, db, xs');
    }
  }

  lemma {:induction false} PlacedOfAttr(ps: seq<Pattern>, s: Schema, g: Given, rows: seq<Row>)
    requires |rows| == |ps| && PlacedMatch(ps, s, g, rows)
    ensures AllOfAttr(ps, s, rows)
  {
    hide PlacedElem, SqlEq;
    forall i | 0 <= i < |ps| ensures OfAttr(ps[i], s, rows[i]) {
      assert ConstsMatch(Placed(ps, i, g), s, rows[i]);
    }
  }

  lemma {:induction false} NotsWithoutInputs(ps: seq<Pattern>, ins: set<Var>, s: Schema, body: seq<Simple>, b: Body)
    requires IsInner(ps, ins, s, body, b) && forall x :: x in ins ==> x !in VarsOf(PatternsOf(body))
    ensures IsInner(ps, {}, s, body, b)
  {
    hide VarsOf, PatternsOf, LocsFrom, TypesFrom, InnerFilters, IsStarJoin;
    var qs := PatternsOf(body);
    forall j ensures IsCorrelation(ps, ins, qs, j) <==> IsCorrelation(ps, {}, qs, j) {
      PlacesOfVar(qs, j.x);
    }
  }

  /** The WHERE clause of a bound query, on rows for its patterns. */
  ghost predicate RowsFit(ps: seq<Pattern>, xs: seq<Expr>, nots: seq<seq<Simple>>, s: Schema, g: Given,
                          rows: seq<Row>, db: Db)
    requires |rows| == |ps|
  {
    var sigma := AssignmentOf(SubstPatterns(ps, g), s, rows);
    && AllMatch(SubstPatterns(ps, g), s, rows) && RowsJoin(SubstPatterns(ps, g), s, rows)
    && (forall x :: x in SubstExprs(xs, g) ==> ExprHolds(x, sigma, db.udf))
    && (forall n :: n in nots ==> NotHolds(n, s, sigma, db.current, db.udf))
  }

  lemma {:induction false} SameExprs(xs: seq<Expr>, g: Given, sigma: Assignment, udf: (Bytes, seq<SqlVal>) -> bool)
    ensures (forall x :: x in SubstExprs(xs, g) ==> ExprHolds(x, Trimmed(sigma, g), udf))
            <==> (forall x :: x in SubstExprs(xs, g) ==> ExprHolds(x, sigma, udf))
  {
    hide ExprHolds, SubstExpr, Trimmed;
    forall x | x in SubstExprs(xs, g) ensures ExprHolds(x, Trimmed(sigma, g), udf) <==> ExprHolds(x, sigma, udf) {
      var i :| 0 <= i < |xs| && SubstExprs(xs, g)[i] == x;
      SubstExprHolds(xs[i], g, sigma, udf);
    }
  }

  lemma {:induction false} SubstOfAttr(ps: seq<Pattern>, s: Schema, g: Given, rows: seq<Row>)
    requires |rows| == |ps| && GivenFits(ps, s, g) && AllMatch(SubstPatterns(ps, g), s, rows)
    ensures AllOfAttr(ps, s, rows)
  {
    hide SqlEq, GivenFits, SubstElem;
    forall i | 0 <= i < |ps| ensures OfAttr(ps[i], s, rows[i]) {
      assert ConstsMatch(SubstPatterns(ps, g)[i], s, rows[i]);
      SubstAttr(ps, s, g, i);
    }
  }

  /** Rows fit the bound query exactly when they fit the substituted one. */
  lemma {:induction false} BoundIsSubst(ps: seq<Pattern>, xs: seq<Expr>, nots: seq<seq<Simple>>, s: Schema, g: Given,
                                        rows: seq<Row>, db: Db)
    requires |rows| == |ps| && Setting(ps, xs, s, g, rows)
    requires forall n, x :: n in nots && x in g ==> x !in VarsOf(PatternsOf(n))
    ensures var sigma := AssignmentOf(ps, s, rows);
            RowsFit(ps, xs, nots, s, g, rows, db) <==>
            && PlacedMatch(ps, s, g, rows) && RowsJoin(ps, s, rows)
            && (forall x :: x in SubstExprs(xs, g) ==> ExprHolds(x, sigma, db.udf))
            && (forall n :: n in nots ==> NotHolds(n, s, sigma, db.current, db.udf))
  {
    hide PatternOK, Clean, OneKind, ExprOK, ExprHolds, PlacedMatch, RowsJoin, AssignmentOf, Schema.Valid, GivenFits,
      SubstExprs, SubstPatterns, AllMatch, NotHolds, VarsOf, PatternsOf, Trimmed, AllOfAttr;
    var sigma := AssignmentOf(ps, s, rows);
    SubstAssignment(ps, s, g, rows);
    SameExprs(xs, g, sigma, db.udf);
    forall n | n in nots ensures NotHolds(n, s, Trimmed(sigma, g), db.current, db.udf)
      <==> NotHolds(n, s, sigma, db.current, db.udf) {
      TrimmedNotHolds(n, s, g, sigma, db.current, db.udf);
    }
    if PlacedMatch(ps, s, g, rows) && RowsJoin(ps, s, rows) {
      PlacedIsSubst(ps, s, g, rows);
    }
    if AllMatch(SubstPatterns(ps, g), s, rows) && RowsJoin(SubstPatterns(ps, g), s, rows) {
      SubstOfAttr(ps, s, g, rows);
      SubstIsPlaced(ps, s, g, rows);
    }
  }

  /** An algebraic query whose inputs are bound, part by part. */
  ghost predicate Compiled(ps: seq<Pattern>, xs: seq<Expr>, nots: seq<seq<Simple>>, find: seq<Var>, s: Schema,
                           g: Given, aq: Algebraic) {
    && SchemaOK(s) && BodyOK(ps, SubstExprs(xs, g), s) && GivenFits(ps, s, g)
    && IsBound(ps, xs, g.Keys, s, g, aq.body) && (forall j :: j in aq.body.joins <==> IsStarJoin(ps, j))
    && aq.raws == []
    && CompiledFind(ps, find, s, g, aq.find) && CompiledNots(ps, nots, s, g, aq.nots)
  }

  ghost predicate CompiledFind(ps: seq<Pattern>, find: seq<Var>, s: Schema, g: Given, fs: seq<FindMapping>) {
    && (forall x :: x in find ==> x in VarsOf(ps) && x !in g)
    && |fs| == |find| && (forall i ::
                            0 <= i < |find| ==> fs[i] == ResolvedFind(ps, TypesFrom(ps, s, map[]), g.Keys, find[i]))
  }

  ghost predicate CompiledNots(ps: seq<Pattern>, nots: seq<seq<Simple>>, s: Schema, g: Given, bs: seq<Body>) {
    && (forall n :: n in nots ==> NotOK(ps, n, s) && forall x :: x in g ==> x !in VarsOf(PatternsOf(n)))
    && |bs| == |nots| && (forall i :: 0 <= i < |bs| ==> IsInner(ps, g.Keys, s, nots[i], bs[i]))
  }

  ghost predicate RelationFits(nots: seq<seq<Simple>>, s: Schema, rel: set<Row>) {
    RelationOK(s, rel) && (nots != [] ==> RowsPlainest(s, rel))
  }

  lemma {:induction false} BoundNots(ps: seq<Pattern>, nots: seq<seq<Simple>>, s: Schema, g: Given, bs: seq<Body>,
                                     rows: seq<Row>, db: Db)
    requires SchemaOK(s) && CompiledNots(ps, nots, s, g, bs) && RelationFits(nots, s, db.current)
    requires |rows| == |ps| && (forall i :: 0 <= i < |ps| ==> rows[i] in db.current) && AllOfAttr(ps, s, rows)
    ensures FragsHold(ClosedNots(TablesFor(ps, s), bs), EnvOf(rows), db) <==>
            forall n :: n in nots ==> NotHolds(n, s, AssignmentOf(ps, s, rows), db.current, db.udf)
  {
    hide SchemaOK, NotOK, Plainest, AllOfAttr, EnvOf, AssignmentOf, VarsOf, PatternsOf, TablesFor, NotHolds, IsInner,
      FragHolds;
    var tbs := TablesFor(ps, s);
    forall i | 0 <= i < |nots|
      ensures FragHolds(ClosedNot(tbs, bs[i]), EnvOf(rows), db)
              <==> NotHolds(nots[i], s, AssignmentOf(ps, s, rows), db.current, db.udf)
    {
      assert nots[i] in nots;
      PlainestRows(s, rows, db.current);
      NotsWithoutInputs(ps, g.Keys, s, nots[i], bs[i]);
      NotMeans(ps, rows, nots[i], s, db, bs[i]);
    }
    NotsCorrespond(tbs, bs, nots, s, AssignmentOf(ps, s, rows), EnvOf(rows), db);
  }

  lemma {:induction false} RowsAreSetting(ps: seq<Pattern>, xs: seq<Expr>, nots: seq<seq<Simple>>, find: seq<Var>,
                                          s: Schema, g: Given, aq: Algebraic, rows: seq<Row>, db: Db)
    requires Compiled(ps, xs, nots, find, s, g, aq) && RelationFits(nots, s, db.current)
    requires |rows| == |ps| && forall i :: 0 <= i < |ps| ==> rows[i] in db.current
    ensures Setting(ps, xs, s, g, rows) && Sees(EnvOf(rows), rows)
  {
    hide SchemaOK, BodyOK, GivenFits, IsBound, Clean;
    CleanRows(s, rows, db.current);
  }

  lemma {:induction false} CompiledShape(ps: seq<Pattern>, xs: seq<Expr>, s: Schema, g: Given, b: Body)
    requires IsBound(ps, xs, g.Keys, s, g, b)
    ensures SameShape(b.tables, TablesFor(ps, s)) && Froms(b.tables) == Froms(TablesFor(ps, s))
  {
    hide SameShape, PlacedTable;
    PlacedShape(ps, s, g, b.tables);
  }

  lemma {:induction false} BoundWhereMeans(ps: seq<Pattern>, xs: seq<Expr>, nots: seq<seq<Simple>>, find: seq<Var>,
                                           s: Schema, g: Given, aq: Algebraic, rows: seq<Row>, db: Db)
    requires Compiled(ps, xs, nots, find, s, g, aq) && RelationFits(nots, s, db.current)
    requires |rows| == |ps| && forall i :: 0 <= i < |ps| ==> rows[i] in db.current
    ensures FragsHold(ClosedWhere(aq), EnvOf(rows), db) <==> RowsFit(ps, xs, nots, s, g, rows, db)
  {
    RowsAreSetting(ps, xs, nots, find, s, g, aq, rows, db);
    CompiledShape(ps, xs, s, g, aq.body);
    SameNots(aq.body.tables, TablesFor(ps, s), aq.nots);
    var b, env, sigma := aq.body, EnvOf(rows), AssignmentOf(ps, s, rows);
    var atoms := ClosedBody(b, JoinAtoms(b.tables, b.joins));
    assert forall n, x :: n in nots && x in g ==> x !in VarsOf(PatternsOf(n));
    hide SchemaOK, RelationFits, BodyOK, NotOK, ClosedBody, ExprHolds, AllOfAttr, RowsJoin, Sees, EnvOf, AssignmentOf,
      VarsOf, PatternsOf, TablesFor, NotHolds, IsInner, IsStarJoin, FragHolds, IsBound, GivenFits, SubstExprs,
      PlacedMatch, RowsFit, Setting, SubstPatterns, CompiledFind, CompiledNots, AtomsHold, FragsHold, SameShape, Froms;
    BoundBodyMeans(ps, xs, s, g, rows, env, db, b);
    BoundIsSubst(ps, xs, nots, s, g, rows, db);
    LiftHolds(atoms, env, db);
    FragsConcat(Lift(atoms) + ClosedRaws(aq.raws), ClosedNots(b.tables, aq.nots), env, db);
    assert Lift(atoms) + ClosedRaws(aq.raws) == Lift(atoms);
    if PlacedMatch(ps, s, g, rows) {
      PlacedOfAttr(ps, s, g, rows);
      BoundNots(ps, nots, s, g, aq.nots, rows, db);
    }
  }

  lemma {:induction false} BoundResults(ps: seq<Pattern>, xs: seq<Expr>, nots: seq<seq<Simple>>, find: seq<Var>,
                                        s: Schema, g: Given, aq: Algebraic, rows: seq<Row>, db: Db,
                     row: seq<SqlVal>, out: seq<DVal>)
    requires Compiled(ps, xs, nots, find, s, g, aq) && RelationFits(nots, s, db.current)
    requires |rows| == |ps| && (forall i :: 0 <= i < |ps| ==> rows[i] in db.current)
             && AllMatch(SubstPatterns(ps, g), s, rows)
    requires row == OperandValues(SelectCols(aq.body.tables, aq.find), EnvOf(rows))
    ensures Reads(aq.find, row, out) <==> Projects(find, AssignmentOf(SubstPatterns(ps, g), s, rows), out)
  {
    RowsAreSetting(ps, xs, nots, find, s, g, aq, rows, db);
    CompiledShape(ps, xs, s, g, aq.body);
    SameSelect(aq.body.tables, TablesFor(ps, s), aq.find);
    hide Clean, PatternOK, ExprOK, OneKind, AllOfAttr, AllMatch, Sees, EnvOf, AssignmentOf, VarsOf, TablesFor,
      CompiledNots, TypesFrom, IsBound, GivenFits, SubstExprs, SubstPatterns, SelectCols, Reads, Projects, Trimmed,
      SameShape, Froms, ResolvedFind, Schema.Valid, OperandValues, RelationFits;
    SubstOfAttr(ps, s, g, rows);
    SubstAssignment(ps, s, g, rows);
    TrimmedProjects(find, g, AssignmentOf(ps, s, rows), out);
    FindWithoutInputs(ps, TypesFrom(ps, s, map[]), g.Keys, find, aq.find);
    ResultsMean(ps, s, rows, EnvOf(rows), find, aq.find, row, out);
  }

  lemma {:induction false} FindWithoutInputs(ps: seq<Pattern>, types: map<Var, ValueType>, ins: set<Var>,
                                             find: seq<Var>, fs: seq<FindMapping>)
    requires |fs| == |find| && forall i :: 0 <= i < |find| ==> fs[i] == ResolvedFind(ps, types, ins, find[i])
    requires forall x :: x in find ==> x !in ins
    ensures forall i :: 0 <= i < |find| ==> fs[i] == ResolvedFind(ps, types, {}, find[i])
  {
    hide LocsFrom;
    forall i | 0 <= i < |find| ensures fs[i] == ResolvedFind(ps, types, {}, find[i]) {
      assert find[i] in find;
    }
  }

  /** A query with these parts. */
  ghost predicate HasParts(q: Query, ps: seq<Pattern>, xs: seq<Expr>, nots: seq<seq<Simple>>, find: seq<Var>,
                           g: Given) {
    var body := SimplesOf(q.where);
    && PatternsOf(body) == SubstPatterns(ps, g) && ExprsOf(body) == SubstExprs(xs, g) && NotsOf(q.where) == nots
       && q.find == find
  }

  lemma {:induction false} FitIsAnswer(q: Query, ps: seq<Pattern>, xs: seq<Expr>, nots: seq<seq<Simple>>,
                                       find: seq<Var>, s: Schema, g: Given, rows: seq<Row>, db: Db, out: seq<DVal>)
    requires HasParts(q, ps, xs, nots, find, g) && |rows| == |ps|
             && (forall i :: 0 <= i < |ps| ==> rows[i] in db.current)
    requires RowsFit(ps, xs, nots, s, g, rows, db) && Projects(find, AssignmentOf(SubstPatterns(ps, g), s, rows), out)
    ensures Answers(q, s, db.current, db.udf, out)
  {
    hide AllMatch, RowsJoin, ExprHolds, NotHolds, AssignmentOf, PatternsOf, ExprsOf, NotsOf, SimplesOf, SubstPatterns,
      SubstExprs, Projects, Satisfies;
    RowsSatisfy(q, s, db, rows);
  }

  lemma {:induction false} AnswerGivesFit(q: Query, ps: seq<Pattern>, xs: seq<Expr>, nots: seq<seq<Simple>>,
                                          find: seq<Var>, s: Schema, g: Given, db: Db, out: seq<DVal>)
    returns (rows: seq<Row>)
    requires HasParts(q, ps, xs, nots, find, g) && Answers(q, s, db.current, db.udf, out)
    ensures |rows| == |ps| && (forall i :: 0 <= i < |ps| ==> rows[i] in db.current)
    ensures RowsFit(ps, xs, nots, s, g, rows, db) && Projects(find, AssignmentOf(SubstPatterns(ps, g), s, rows), out)
  {
    hide RowsJoin, ExprHolds, NotHolds, AssignmentOf, PatternsOf, ExprsOf, NotsOf, SimplesOf, SubstPatterns,
      SubstExprs, Projects, PatternHolds, ConstsMatch;
    var sigma :| Satisfies(q, s, sigma, db.current, db.udf) && Projects(q.find, sigma, out);
    rows := AssignmentGivesRows(SubstPatterns(ps, g), s, sigma, db.current);
  }

  /** What a query returns, with its parameters in place. */
  ghost predicate ClosedReturns(aq: Algebraic, db: Db, env: Env, row: seq<SqlVal>, out: seq<DVal>) {
    && Ranges(Froms(aq.body.tables), env, db) && FragsHold(ClosedWhere(aq), env, db)
    && row == OperandValues(SelectCols(aq.body.tables, aq.find), env) && Reads(aq.find, row, out)
  }

  lemma {:induction false} ReturnsAreClosed(aq: Algebraic, db: Db, out: seq<DVal>)
    requires RawsAligned(aq.raws)
    ensures QueryReturns(aq, db, out) <==> exists env, row :: ClosedReturns(aq, db, env, row, out)
  {
    PlaceholdersTakeTheirParameters(aq);
    hide FragsHold, ClosedWhere, BindFrags, Ranges, OperandValues, Reads, WhereFrags, NotFrags, SelectCols, Froms,
      RawsAligned;
    if QueryReturns(aq, db, out) {
      var row :| Returns(Translated(aq), db, row) && Reads(aq.find, row, out);
      var env :| Ranges(Froms(aq.body.tables), env, db) && FragsHold(ClosedWhere(aq), env, db)
        && row == OperandValues(SelectCols(aq.body.tables, aq.find), env);
      assert ClosedReturns(aq, db, env, row, out);
    }
    if env, row :| ClosedReturns(aq, db, env, row, out) {
      assert Returns(Translated(aq), db, row);
    }
  }

  lemma {:induction false} BoundReturns(q: Query, ps: seq<Pattern>, xs: seq<Expr>, nots: seq<seq<Simple>>,
                                        find: seq<Var>, s: Schema, g: Given, aq: Algebraic, db: Db, out: seq<DVal>)
    requires Compiled(ps, xs, nots, find, s, g, aq) && RelationFits(nots, s, db.current)
             && HasParts(q, ps, xs, nots, find, g)
    ensures (exists env, row :: ClosedReturns(aq, db, env, row, out)) <==> Answers(q, s, db.current, db.udf, out)
  {
    CompiledShape(ps, xs, s, g, aq.body);
    hide Compiled, RelationFits, HasParts, FragsHold, ClosedWhere, Ranges, OperandValues, Reads, SelectCols, Froms,
      TablesFor, EnvOf, Answers, Projects, AssignmentOf, SubstPatterns, AllMatch, RowsJoin, SubstExprs, ExprHolds,
      NotHolds, Sees, SameShape;
    if env, row :| ClosedReturns(aq, db, env, row, out) {
      var rows := RangesGiveRows(ps, s, env, db);
      BoundWhereMeans(ps, xs, nots, find, s, g, aq, rows, db);
      BoundResults(ps, xs, nots, find, s, g, aq, rows, db, row, out);
      FitIsAnswer(q, ps, xs, nots, find, s, g, rows, db, out);
    }
    if Answers(q, s, db.current, db.udf, out) {
      var rows := AnswerGivesFit(q, ps, xs, nots, find, s, g, db, out);
      RowsGiveRanges(ps, s, rows, db);
      BoundWhereMeans(ps, xs, nots, find, s, g, aq, rows, db);
      var row := OperandValues(SelectCols(aq.body.tables, aq.find), EnvOf(rows));
      BoundResults(ps, xs, nots, find, s, g, aq, rows, db, row, out);
      assert ClosedReturns(aq, db, EnvOf(rows), row, out);
    }
  }

  lemma {:induction false} InputsAreGiven(q: Query, vs: seq<Value>)
    requires |q.ins| <= |vs|
    ensures var g := GivenOf(q.ins, vs); (set x | x in q.ins) == g.Keys && forall x :: x in g <==> x in q.ins
  {
    GivenKeys(q.ins, vs);
  }

  lemma {:induction false} NotsCompile(ps: seq<Pattern>, nots: seq<seq<Simple>>, s: Schema, ins: seq<Var>, g: Given,
                                       bs: seq<Body>)
    requires (set x | x in ins) == g.Keys
    requires forall n :: n in nots ==> NotOK(ps, n, s) && forall x :: x in ins ==> x !in VarsOf(PatternsOf(n))
    requires |bs| == |nots| && forall i :: 0 <= i < |bs| ==> IsInner(ps, (set x | x in ins), s, nots[i], bs[i])
    ensures CompiledNots(ps, nots, s, g, bs)
  {
    hide NotOK, IsInner, VarsOf, PatternsOf;
    assert forall x :: x in g ==> x in (set x | x in ins);
  }

  lemma {:induction false} FindCompiles(ps: seq<Pattern>, find: seq<Var>, s: Schema, ins: seq<Var>, g: Given,
                                        fs: seq<FindMapping>)
    requires (set x | x in ins) == g.Keys
    requires forall x :: x in find ==> x in VarsOf(ps) && x !in ins
    requires var types := TypesFrom(ps, s, map[]);
      && |fs| == |find|
      && forall i :: 0 <= i < |find| ==> fs[i] == ResolvedFind(ps, types, (set x | x in ins), find[i])
    ensures CompiledFind(ps, find, s, g, fs)
  {
    hide ResolvedFind, TypesFrom, VarsOf;
    assert forall x :: x in g ==> x in (set x | x in ins);
  }

  lemma {:induction false} PartsCompile(q: Query, s: Schema, g: Given, aq: Algebraic)
    requires (set x | x in q.ins) == g.Keys && InputsApart(q, PatternsOf(SimplesOf(q.where)), s)
             && IsAlgebraOf(q, s, aq)
    ensures var ps := PatternsOf(SimplesOf(q.where));
            CompiledFind(ps, q.find, s, g, aq.find) && CompiledNots(ps, NotsOf(q.where), s, g, aq.nots)
  {
    var ps := PatternsOf(SimplesOf(q.where));
    hide NotOK, IsInner, IsStarJoin, PatternsOf, ExprsOf, NotsOf, SimplesOf, VarsOf, TypesFrom, ResolvedFind,
      ResolvedFilters, TablesFor, CompiledFind, CompiledNots;
    FindCompiles(ps, q.find, s, q.ins, g, aq.find);
    NotsCompile(ps, NotsOf(q.where), s, q.ins, g, aq.nots);
  }

  /** The body of an algebraic form, its raw filters left out. */
  ghost predicate BodyOf(ps: seq<Pattern>, xs: seq<Expr>, ins: set<Var>, s: Schema, b: Body) {
    && b.tables == TablesFor(ps, s) && (forall j :: j in b.joins <==> IsStarJoin(ps, j))
    && b.filters == ResolvedFilters(ps, TypesFrom(ps, s, map[]), ins, xs)
  }

  lemma {:induction false} AlgebraParts(q: Query, s: Schema, g: Given, aq: Algebraic)
    requires (set x | x in q.ins) == g.Keys && IsAlgebraOf(q, s, aq)
    ensures BodyOf(PatternsOf(SimplesOf(q.where)), ExprsOf(SimplesOf(q.where)), g.Keys, s, aq.body) && aq.raws == []
  {
    hide IsInner, IsStarJoin, PatternsOf, ExprsOf, NotsOf, SimplesOf, TypesFrom, ResolvedFind, ResolvedFilters,
      TablesFor;
  }

  lemma {:induction false} BindBody(ps: seq<Pattern>, xs: seq<Expr>, ins: seq<Var>, s: Schema, vs: seq<Value>, b: Body)
    requires |ins| <= |vs| && Distinct(ins) && forall i :: 0 <= i < |ins| ==> InputOK(ps, xs, s, ins[i], vs[i])
    requires var g := GivenOf(ins, vs); BodyOf(ps, xs, g.Keys, s, b) && forall x :: x in g <==> x in ins
    ensures var g := GivenOf(ins, vs);
            && BindInputs(b, ins, vs).Ok? && BindInputs(b, ins, vs).value.joins == b.joins
            && IsBound(ps, xs, g.Keys, s, g, BindInputs(b, ins, vs).value) && GivenFits(ps, s, g)
  {
    hide InputOK, GivenFits, IsBound, GivenOf, BindInputs, TablesFor, ResolvedFilters, TypesFrom, IsStarJoin;
    InputsFit(ps, xs, s, ins, vs);
    NothingBound(ps, xs, GivenOf(ins, vs).Keys, s, b);
    BindInputsBinds(ps, xs, GivenOf(ins, vs).Keys, s, b, ins, vs);
  }

  lemma {:induction false} BodyBinds(q: Query, s: Schema, vs: seq<Value>, aq: Algebraic)
    requires InputsOK(q, s, vs) && IsAlgebraOf(q, s, aq)
    ensures var ps, xs, g := PatternsOf(SimplesOf(q.where)), ExprsOf(SimplesOf(q.where)), GivenOf(q.ins, vs);
            && BindAll(aq, q.ins, vs).Ok? && var bound := BindAll(aq, q.ins, vs).value;
            && bound == aq.(body := bound.body) && bound.body.joins == aq.body.joins
            && IsBound(ps, xs, g.Keys, s, g, bound.body) && GivenFits(ps, s, g)
  {
    var ps, xs, g := PatternsOf(SimplesOf(q.where)), ExprsOf(SimplesOf(q.where)), GivenOf(q.ins, vs);
    InputsAreGiven(q, vs);
    AlgebraParts(q, s, g, aq);
    hide IsAlgebraOf, InputsApart, BodyOK, PatternsOf, ExprsOf, SimplesOf, IsBound, InputOK, GivenFits, SubstExprs,
      GivenOf, BindInputs, BodyOf;
    BindBody(ps, xs, q.ins, s, vs, aq.body);
  }

  lemma {:induction false} BindingCompiles(q: Query, s: Schema, vs: seq<Value>, aq: Algebraic)
    requires SchemaOK(s) && InputsOK(q, s, vs) && IsAlgebraOf(q, s, aq)
    ensures var body, g := SimplesOf(q.where), GivenOf(q.ins, vs);
            && BindAll(aq, q.ins, vs).Ok?
            && Compiled(PatternsOf(body), ExprsOf(body), NotsOf(q.where), q.find, s, g, BindAll(aq, q.ins, vs).value)
  {
    InputsAreGiven(q, vs);
    BodyBinds(q, s, vs, aq);
    PartsCompile(q, s, GivenOf(q.ins, vs), aq);
    AlgebraParts(q, s, GivenOf(q.ins, vs), aq);
    hide IsAlgebraOf, InputsApart, SchemaOK, BodyOK, NotOK, IsInner, IsStarJoin, PatternsOf, ExprsOf, NotsOf,
      SimplesOf, VarsOf, TypesFrom, ResolvedFind, ResolvedFilters, TablesFor, IsBound, InputOK, GivenFits, SubstExprs,
      GivenOf, BindAll, CompiledFind, CompiledNots;
  }

  /** Binding the inputs of a query succeeds, and the bound query returns exactly the
      answers of the query with each input replaced by its value at every occurrence. */
  lemma {:induction false} BindingIsSubstitution(q: Query, s: Schema, vs: seq<Value>, aq: Algebraic, db: Db,
                                                 out: seq<DVal>)
    requires SchemaOK(s) && InputsOK(q, s, vs) && IsAlgebraOf(q, s, aq) && DataOK(q, s, db.current)
    ensures BindAll(aq, q.ins, vs).Ok?
    ensures QueryReturns(BindAll(aq, q.ins, vs).value, db, out)
            <==> Answers(SubstQuery(q, GivenOf(q.ins, vs)), s, db.current, db.udf, out)
  {
    var body, g := SimplesOf(q.where), GivenOf(q.ins, vs);
    hide SchemaOK, InputsOK, IsAlgebraOf, RelationOK, RowsPlainest, Compiled, QueryReturns, ClosedReturns, Answers,
      PatternsOf, ExprsOf, NotsOf, SimplesOf, SubstPatterns, SubstExprs, GivenOf, BindAll;
    BindingCompiles(q, s, vs, aq);
    SubstQueryParts(q, g);
    var bound := BindAll(aq, q.ins, vs).value;
    assert bound.raws == [] by { CompiledRaws(PatternsOf(body), ExprsOf(body), NotsOf(q.where), q.find, s, g, bound); }
    ReturnsAreClosed(bound, db, out);
    BoundReturns(SubstQuery(q, g), PatternsOf(body), ExprsOf(body), NotsOf(q.where), q.find, s, g, bound, db, out);
  }

  lemma {:induction false} CompiledRaws(ps: seq<Pattern>, xs: seq<Expr>, nots: seq<seq<Simple>>, find: seq<Var>,
                                        s: Schema, g: Given, aq: Algebraic)
    requires Compiled(ps, xs, nots, find, s, g, aq)
    ensures aq.raws == []
  {
  }

  // ---------------------------------------------------------------------
  // No inputs: the compiler itself
  // ---------------------------------------------------------------------

  lemma {:induction false} NoInputs(q: Query, s: Schema)
    requires WellTyped(q, s)
    ensures var body, none: Given := SimplesOf(q.where), map[];
            && (set x | x in q.ins) == none.Keys && InputsApart(q, PatternsOf(body), s)
               && BodyOK(PatternsOf(body), ExprsOf(body), s)
  {
    hide BodyOK, NotOK, PatternsOf, ExprsOf, NotsOf, SimplesOf, VarsOf;
  }

  lemma {:induction false} UnboundCompiles(ps: seq<Pattern>, xs: seq<Expr>, nots: seq<seq<Simple>>, find: seq<Var>,
                                           s: Schema, aq: Algebraic)
    requires var none: Given := map[];
      && SchemaOK(s) && BodyOK(ps, xs, s) && BodyOf(ps, xs, none.Keys, s, aq.body) && aq.raws == []
      && CompiledFind(ps, find, s, none, aq.find) && CompiledNots(ps, nots, s, none, aq.nots)
    ensures Compiled(ps, xs, nots, find, s, map[], aq)
  {
    var none: Given := map[];
    hide SchemaOK, BodyOK, IsBound, SubstExprs, CompiledFind, CompiledNots, TablesFor, ResolvedFilters, TypesFrom,
      IsStarJoin;
    NothingSubstituted(xs);
    NothingBound(ps, xs, none.Keys, s, aq.body);
  }

  lemma {:induction false} NothingToBind(q: Query, s: Schema, aq: Algebraic)
    requires SchemaOK(s) && WellTyped(q, s) && IsAlgebraOf(q, s, aq)
    ensures var body := SimplesOf(q.where);
            && Compiled(PatternsOf(body), ExprsOf(body), NotsOf(q.where), q.find, s, map[], aq)
            && HasParts(q, PatternsOf(body), ExprsOf(body), NotsOf(q.where), q.find, map[])
  {
    var ps, xs := PatternsOf(SimplesOf(q.where)), ExprsOf(SimplesOf(q.where));
    hide WellTyped, IsAlgebraOf, SchemaOK, BodyOK, BodyOf, PatternsOf, ExprsOf, NotsOf, SimplesOf, SubstExprs,
      SubstPatterns, CompiledFind, CompiledNots, InputsApart, Compiled;
    NoInputs(q, s);
    AlgebraParts(q, s, map[], aq);
    PartsCompile(q, s, map[], aq);
    NothingSubstituted(xs);
    NothingSubstitutedInPatterns(ps);
    UnboundCompiles(ps, xs, NotsOf(q.where), q.find, s, aq);
  }

  lemma {:induction false} NothingSubstitutedInPatterns(ps: seq<Pattern>)
    ensures SubstPatterns(ps, map[]) == ps
  {
  }

  /** For every well-typed query of patterns, expressions and correlating negations, the
      compiled SQL with its positional parameters returns exactly the projections of the
      assignments that satisfy every clause, whatever order the joins were emitted in. */
  lemma {:induction false} CompiledQueryIsDatalog(q: Query, s: Schema, aq: Algebraic, db: Db, out: seq<DVal>)
    requires SchemaOK(s) && WellTyped(q, s) && IsAlgebraOf(q, s, aq) && DataOK(q, s, db.current)
    ensures QueryReturns(aq, db, out) <==> Answers(q, s, db.current, db.udf, out)
  {
    var body := SimplesOf(q.where);
    hide SchemaOK, WellTyped, RelationOK, RowsPlainest, Compiled, QueryReturns, ClosedReturns, Answers, PatternsOf,
      ExprsOf, NotsOf, SimplesOf, HasParts;
    assert aq.raws == [];
    hide IsAlgebraOf;
    NothingToBind(q, s, aq);
    ReturnsAreClosed(aq, db, out);
    BoundReturns(q, PatternsOf(body), ExprsOf(body), NotsOf(q.where), q.find, s, map[], aq, db, out);
  }
}
