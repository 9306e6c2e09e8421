/** The compiler is correct: a compiled query returns exactly the answers of the
    Datalog query, whatever order the algebrizer emits its joins in. */
module Compiler {
  import opened Prelude
  import opened Values
  import opened Store
  import opened Sql
  import opened Datalog
  import opened Algebra
  import opened Places
  import opened Placeholders

  // ---------------------------------------------------------------------
  // Well-typed queries
  // ---------------------------------------------------------------------

  /** A constant of a Go type that a place of this kind can hold. */
  predicate ConstFits(c: Value, k: Kind) {
    match k
    case KInt => c.VInt? || c.VBool?
    case KText => c.VString?
    case KReal => c.VFloat? || c.VInt?
    case KBytes => c.VBytes?
    case KRaw => false
  }

  predicate PatternOK(p: Pattern, s: Schema) {
    && (Bound(p.a) ==> p.a.c.VString? && p.a.c.s in s.byIdent)
    && (Bound(p.e) ==> ConstFits(p.e.c, KInt))
    && (Bound(p.tx) ==> ConstFits(p.tx.c, KInt))
    && (Bound(p.v) ==> ConstFits(p.v.c, KindAt(p, s, ColV)))
  }

  /** Some place of x has kind k. */
  ghost predicate VarKind(ps: seq<Pattern>, s: Schema, x: Var, k: Kind) {
    exists i, col :: StandsAt(ps, x, i, col) && KindAt(ps[i], s, col) == k
  }

  ghost predicate ArgOK(ps: seq<Pattern>, s: Schema, el: Elem, k: Kind) {
    match el
    case EVar(x) => VarKind(ps, s, x, k)
    case EConst(c) => ConstFits(c, k)
    case EBlank => false
  }

  /** A comparison is of two operands of one kind; a call may take any of its variables. */
  ghost predicate ExprOK(ps: seq<Pattern>, s: Schema, x: Expr) {
    && (forall el :: el in x.args && el.EVar? ==> el.x in VarsOf(ps) && !VarKind(ps, s, el.x, KRaw))
    && (Builtin(x.fn).Some? ==> |x.args| == 2 && exists k :: ArgOK(ps, s, x.args[0], k) && ArgOK(ps, s, x.args[1], k))
  }

  ghost predicate BodyOK(ps: seq<Pattern>, xs: seq<Expr>, s: Schema) {
    && (forall p :: p in ps ==> PatternOK(p, s))
    && OneKind(ps, s)
    && (forall x :: x in xs ==> ExprOK(ps, s, x))
  }

  /** Attribute ids are int64 and not 0, the id that means "no attribute". */
  ghost predicate SchemaOK(s: Schema) {
    s.Valid() && forall k :: k in s.byID ==> 1 <= k < TWO63
  }

  ghost predicate RelationOK(s: Schema, rel: set<Row>) {
    forall r :: r in rel ==> Clean(s, r)
  }

  // ---------------------------------------------------------------------
  // Environments
  // ---------------------------------------------------------------------

  /** The aliases d0, d1, ... name these rows. */
  ghost predicate Sees(env: Env, rows: seq<Row>) {
    forall i :: 0 <= i < |rows| ==> D(i) in env && env[D(i)] == rows[i]
  }

  function EnvOf(rows: seq<Row>): Env {
    map i | 0 <= i < |rows| :: D(i) := rows[i]
  }

  lemma {:induction false} RangesGiveRows(ps: seq<Pattern>, s: Schema, env: Env, db: Db) returns (rows: seq<Row>)
    requires Ranges(Froms(TablesFor(ps, s)), env, db)
    ensures |rows| == |ps| && (forall i :: 0 <= i < |ps| ==> rows[i] in db.current) && env == EnvOf(rows)
  {
    var from := Froms(TablesFor(ps, s));
    assert forall i :: 0 <= i < |ps| ==> from[i] == From(CurrentDatoms, D(i));
    rows := seq(|ps|, i requires 0 <= i < |ps| => env[from[i].alias]);
    assert forall al :: al in env ==> al in EnvOf(rows);
  }

  lemma {:induction false} RowsGiveRanges(ps: seq<Pattern>, s: Schema, rows: seq<Row>, db: Db)
    requires |rows| == |ps| && forall i :: 0 <= i < |ps| ==> rows[i] in db.current
    ensures Ranges(Froms(TablesFor(ps, s)), EnvOf(rows), db) && Sees(EnvOf(rows), rows)
  {
    var from := Froms(TablesFor(ps, s));
    assert forall i :: 0 <= i < |ps| ==> from[i] == From(CurrentDatoms, D(i));
  }

  // ---------------------------------------------------------------------
  // Tables
  // ---------------------------------------------------------------------

  lemma {:induction false} CompareEq(x: SqlVal, y: SqlVal)
    ensures Compare(Eq, x, y) <==> SqlEq(x, y)
  {
  }

  ghost predicate HoleHolds(alias: Alias, col: Column, v: Value, bound: bool, env: Env, db: Db) {
    AtomsHold(ClosedHole(alias, col, v, bound), env, db)
  }

  lemma {:induction false} HoleMeans(alias: Alias, col: Column, v: Value, bound: bool, env: Env, db: Db)
    requires alias in env
    ensures HoleHolds(alias, col, v, bound, env, db) <==> (bound ==> SqlEq(ColumnValue(env[alias], col), Param(v)))
  {
    hide SqlEq, ColumnValue, Param;
    if bound {
      var a := ACmp(Eq, OCol(alias, col), OLit(Param(v)));
      assert ClosedHole(alias, col, v, bound) == [a] && a in [a];
      CompareEq(ColumnValue(env[alias], col), Param(v));
    }
  }

  lemma {:induction false} AtomsConcat(a: seq<Atom>, b: seq<Atom>, env: Env, db: Db)
    ensures AtomsHold(a + b, env, db) <==> AtomsHold(a, env, db) && AtomsHold(b, env, db)
  {
    assert forall x :: x in a + b <==> x in a || x in b;
  }

  lemma {:induction false} TableSplits(tb: TableBinding, env: Env, db: Db)
    ensures AtomsHold(ClosedTable(tb), env, db) <==>
      && HoleHolds(tb.alias, ColA, IdValue(tb.attrID), tb.attrID != 0, env, db)
      && HoleHolds(tb.alias, ColE, tb.eBound, tb.eBound != VNil, env, db)
      && HoleHolds(tb.alias, ReadCol(ColV, tb.valueType), tb.vBound, tb.vBound != VNil, env, db)
      && HoleHolds(tb.alias, ColTx, tb.txBound, tb.txBound != VNil, env, db)
  {
    hide AtomsHold, ClosedHole, ReadCol, IdValue;
    var c1, c2 := ClosedHole(tb.alias, ColA, IdValue(tb.attrID), tb.attrID != 0),
      ClosedHole(tb.alias, ColE, tb.eBound, tb.eBound != VNil);
    var c3 := ClosedHole(tb.alias, ReadCol(ColV, tb.valueType), tb.vBound, tb.vBound != VNil);
    var c4 := ClosedHole(tb.alias, ColTx, tb.txBound, tb.txBound != VNil);
    AtomsConcat(c1, c2, env, db);
    AtomsConcat(c1 + c2, c3, env, db);
    AtomsConcat(c1 + c2 + c3, c4, env, db);
  }

  /** The conditions of one table are the constants of its pattern. */
  lemma {:induction false} TableMeans(p: Pattern, s: Schema, i: int, r: Row, env: Env, db: Db)
    requires SchemaOK(s) && PatternOK(p, s) && Clean(s, r) && D(i) in env && env[D(i)] == r
    ensures AtomsHold(ClosedTable(TableFor(i, p, s)), env, db) <==> ConstsMatch(p, s, r)
  {
    hide AtomsHold, SqlEq, HoleHolds, Clean, CellAt, ConstFits;
    var tb := TableFor(i, p, s);
    TableSplits(tb, env, db);
    HoleMeans(D(i), ColA, IdValue(tb.attrID), tb.attrID != 0, env, db);
    HoleMeans(D(i), ColE, tb.eBound, tb.eBound != VNil, env, db);
    HoleMeans(D(i), ReadCol(ColV, tb.valueType), tb.vBound, tb.vBound != VNil, env, db);
    HoleMeans(D(i), ColTx, tb.txBound, tb.txBound != VNil, env, db);
    IntEq(r.fact.a, tb.attrID);
    if OfAttr(p, s, r) {
      CellOfPlace(p, s, ColV, r);
    }
  }

  lemma {:induction false} IntEq(n: int, m: int)
    ensures SqlEq(SInt(n), SInt(m)) <==> n == m
  {
  }

  lemma {:induction false} TablesMean(ps: seq<Pattern>, s: Schema, rows: seq<Row>, env: Env, db: Db)
    requires SchemaOK(s) && (forall p :: p in ps ==> PatternOK(p, s))
    requires |rows| == |ps| && (forall r :: r in rows ==> Clean(s, r)) && Sees(env, rows)
    ensures AtomsHold(ClosedTables(TablesFor(ps, s)), env, db)
            <==> forall i :: 0 <= i < |ps| ==> ConstsMatch(ps[i], s, rows[i])
  {
    hide SchemaOK, PatternOK, Clean, AtomsHold, ConstsMatch;
    if ps == [] {
      NoAtoms(env, db);
    } else {
      var n := |ps| - 1;
      assert TablesFor(ps, s)[..n] == TablesFor(ps[..n], s);
      assert forall r :: r in rows[..n] ==> r in rows;
      TablesMean(ps[..n], s, rows[..n], env, db);
      TableMeans(ps[n], s, n, rows[n], env, db);
      AtomsConcat(ClosedTables(TablesFor(ps[..n], s)), ClosedTable(TableFor(n, ps[n], s)), env, db);
      assert forall i :: 0 <= i < n ==> ps[..n][i] == ps[i] && rows[..n][i] == rows[i];
    }
  }

  lemma {:induction false} NoAtoms(env: Env, db: Db)
    ensures AtomsHold([], env, db)
  {
  }

  // ---------------------------------------------------------------------
  // Joins
  // ---------------------------------------------------------------------

  ghost predicate AllOfAttr(ps: seq<Pattern>, s: Schema, rows: seq<Row>)
    requires |rows| == |ps|
  {
    forall i :: 0 <= i < |ps| ==> OfAttr(ps[i], s, rows[i])
  }

  lemma {:induction false} MatchingRowsOfAttr(ps: seq<Pattern>, s: Schema, rows: seq<Row>)
    requires |rows| == |ps| && forall i :: 0 <= i < |ps| ==> ConstsMatch(ps[i], s, rows[i])
    ensures AllOfAttr(ps, s, rows)
  {
  }

  /** The operand for a place of a variable has the value in that place. */
  lemma {:induction false} PlaceMeans(ps: seq<Pattern>, s: Schema, rows: seq<Row>, env: Env, x: Var, l: Loc)
    requires s.Valid() && |rows| == |ps| && (forall r :: r in rows ==> Clean(s, r)) && Sees(env, rows)
             && AllOfAttr(ps, s, rows)
    requires StandsAt(ps, x, l.table, l.col)
    ensures var tbs := TablesFor(ps, s);
            && OperandValue(PlaceOf(tbs, l.table, ReadCol(l.col, ValueTypeOf(tbs, l.table))), env)
               == Cmp(CellIn(ps, s, rows, l))
            && HasKind(CellIn(ps, s, rows, l), KindAt(ps[l.table], s, l.col))
  {
    hide Clean, KindAt, CellAt, ReadCol, HasKind, Cmp;
    assert rows[l.table] in rows;
    CellOfPlace(ps[l.table], s, l.col, rows[l.table]);
  }

  lemma {:induction false} JoinMeans(ps: seq<Pattern>, s: Schema, rows: seq<Row>, env: Env, db: Db, x: Var, k: int)
    requires s.Valid() && |rows| == |ps| && (forall r :: r in rows ==> Clean(s, r)) && Sees(env, rows)
             && AllOfAttr(ps, s, rows)
    requires OneKind(ps, s) && 1 <= k < |LocsFrom(ps, x)|
    ensures var locs := LocsFrom(ps, x);
            && StandsAt(ps, x, locs[k].table, locs[k].col)
            && (AtomHolds(JoinAtom(TablesFor(ps, s), StarJoin(x, locs, k)), env, db)
                <==> CellIn(ps, s, rows, locs[k]) == FirstCell(ps, s, rows, x))
  {
    hide Clean, CellAt, HasKind, Cmp, Compare, LocsFrom, AllOfAttr, Sees, ReadCol;
    var locs := LocsFrom(ps, x);
    assert locs[0] in locs && locs[k] in locs;
    PlaceIff(ps, x, locs[0]);
    PlaceIff(ps, x, locs[k]);
    assert StandsAt(ps, x, locs[0].table, locs[0].col) && StandsAt(ps, x, locs[k].table, locs[k].col);
    PlaceMeans(ps, s, rows, env, x, locs[0]);
    PlaceMeans(ps, s, rows, env, x, locs[k]);
    if KindAt(ps[locs[0].table], s, locs[0].col) == KRaw {
      // The one place of the variable; the join compares it with itself.
      assert locs[0] == locs[k];
      SelfEqual(CellIn(ps, s, rows, locs[0]));
    } else {
      EqualByKind(KindAt(ps[locs[0].table], s, locs[0].col), CellIn(ps, s, rows, locs[0]),
                  CellIn(ps, s, rows, locs[k]));
    }
  }

  lemma {:induction false} SelfEqual(d: DVal)
    requires HasKind(d, KRaw)
    ensures Compare(Eq, Cmp(d), Cmp(d))
  {
  }

  /** Star joins, in any order, say that every place of a variable agrees with its first. */
  lemma {:induction false} JoinsMean(ps: seq<Pattern>, s: Schema, rows: seq<Row>, env: Env, db: Db, joins: seq<Join>)
    requires s.Valid() && |rows| == |ps| && (forall r :: r in rows ==> Clean(s, r)) && Sees(env, rows)
             && AllOfAttr(ps, s, rows)
    requires OneKind(ps, s) && forall j :: j in joins <==> IsStarJoin(ps, j)
    ensures AtomsHold(JoinAtoms(TablesFor(ps, s), joins), env, db) <==> RowsJoin(ps, s, rows)
  {
    hide Clean, CellAt, AllOfAttr, Sees, LocsFrom, OneKind, AtomHolds, JoinAtom, FirstCell, Schema.Valid, StarJoin;
    var tbs := TablesFor(ps, s);
    var atoms := JoinAtoms(tbs, joins);
    if AtomsHold(atoms, env, db) {
      forall x, i, col | StandsAt(ps, x, i, col) ensures CellIn(ps, s, rows, Loc(i, col)) == FirstCell(ps, s, rows, x) {
        PlaceIff(ps, x, Loc(i, col));
        var locs := LocsFrom(ps, x);
        var k :| 0 <= k < |locs| && locs[k] == Loc(i, col);
        if k == 0 {
          FirstIsFirst(ps, s, rows, x);
        } else {
          var j := StarJoin(x, locs, k);
          JoinMeans(ps, s, rows, env, db, x, k);
          StarJoinIs(ps, x, k);
          assert j in joins && JoinAtom(tbs, j) in atoms;
        }
      }
    }
    if RowsJoin(ps, s, rows) {
      forall a | a in atoms ensures AtomHolds(a, env, db) {
        var j :| j in joins && a == JoinAtom(tbs, j);
        var locs := LocsFrom(ps, j.x);
        var k :| 1 <= k < |locs| && j == StarJoin(j.x, locs, k);
        JoinMeans(ps, s, rows, env, db, j.x, k);
        assert Loc(locs[k].table, locs[k].col) == locs[k];
      }
    }
  }

  lemma {:induction false} StarJoinIs(ps: seq<Pattern>, x: Var, k: int)
    requires 1 <= k < |LocsFrom(ps, x)|
    ensures IsStarJoin(ps, StarJoin(x, LocsFrom(ps, x), k))
  {
  }

  lemma {:induction false} FirstIsFirst(ps: seq<Pattern>, s: Schema, rows: seq<Row>, x: Var)
    requires |rows| == |ps| && LocsFrom(ps, x) != []
    ensures var l := LocsFrom(ps, x)[0]; 0 <= l.table < |ps| && FirstCell(ps, s, rows, x) == CellIn(ps, s, rows, l)
  {
    PlacesOfVar(ps, x);
  }

  // ---------------------------------------------------------------------
  // Filters
  // ---------------------------------------------------------------------

  ghost predicate TypedAt(ps: seq<Pattern>, s: Schema, x: Var, t: ValueType) {
    exists i :: StandsAt(ps, x, i, ColV) && PatType(ps[i], s) == Some(t)
  }

  /** A variable's type is the type of some value position it stands in. */
  lemma {:induction false} TypeIsOfAPlace(ps: seq<Pattern>, s: Schema, parent: map<Var, ValueType>, x: Var)
    ensures (exists t :: TypedAt(ps, s, x, t))
            ==> x in TypesFrom(ps, s, parent) && TypedAt(ps, s, x, TypesFrom(ps, s, parent)[x])
  {
    if ps != [] {
      hide PatType;
      var n := |ps| - 1;
      TypeIsOfAPlace(ps[..n], s, parent, x);
      var p := ps[n];
      if p.v == EVar(x) && PatType(p, s).Some? {
        assert StandsAt(ps, x, n, ColV);
      } else if t :| TypedAt(ps, s, x, t) {
        var i :| StandsAt(ps, x, i, ColV) && PatType(ps[i], s) == Some(t);
        assert StandsAt(ps[..n], x, i, ColV) && ps[..n][i] == ps[i];
        assert TypedAt(ps[..n], s, x, t);
        var u := TypesFrom(ps[..n], s, parent)[x];
        var i' :| StandsAt(ps[..n], x, i', ColV) && PatType(ps[..n][i'], s) == Some(u);
        assert StandsAt(ps, x, i', ColV) && ps[..n][i'] == ps[i'];
      }
    }
  }

  lemma {:induction false} SameKindSameColumn(t: ValueType, u: ValueType)
    requires KindOfType(t) == KindOfType(u)
    ensures ReadCol(ColV, Some(t)) == ReadCol(ColV, Some(u))
  {
  }

  /** The type recorded for a variable reads its first place through the right column. */
  predicate TypeFits(ps: seq<Pattern>, s: Schema, l: Loc, t: Option<ValueType>) {
    0 <= l.table < |ps| && (l.col == ColV ==> t.Some? && KindOfType(t.value) == KindAt(ps[l.table], s, ColV))
  }

  lemma {:induction false} RecordedTypeFits(ps: seq<Pattern>, s: Schema, parent: map<Var, ValueType>, x: Var)
    requires OneKind(ps, s) && x in VarsOf(ps) && !VarKind(ps, s, x, KRaw)
    ensures LocsFrom(ps, x) != [] && TypeFits(ps, s, LocsFrom(ps, x)[0], TypeOf(TypesFrom(ps, s, parent), x))
  {
    hide VarsOf, LocsFrom, TypesFrom, OneKind;
    PlacesOfVar(ps, x);
    var l := LocsFrom(ps, x)[0];
    assert StandsAt(ps, x, l.table, l.col);
    if l.col == ColV {
      assert KindAt(ps[l.table], s, ColV) != KRaw;
      assert TypedAt(ps, s, x, PatType(ps[l.table], s).value);
      TypeIsOfAPlace(ps, s, parent, x);
      KindsEqual(ps, s, x, l, TypesFrom(ps, s, parent)[x]);
    }
  }

  lemma {:induction false} KindsEqual(ps: seq<Pattern>, s: Schema, x: Var, l: Loc, t: ValueType)
    requires OneKind(ps, s) && StandsAt(ps, x, l.table, l.col) && TypedAt(ps, s, x, t)
    ensures KindOfType(t) == KindAt(ps[l.table], s, l.col)
  {
    var i :| StandsAt(ps, x, i, ColV) && PatType(ps[i], s) == Some(t);
  }

  /** A resolved variable reads the value its assignment gives it. */
  lemma {:induction false} VarArgMeans(ps: seq<Pattern>, s: Schema, rows: seq<Row>, env: Env, x: Var,
                                       t: Option<ValueType>)
    requires s.Valid() && |rows| == |ps| && (forall r :: r in rows ==> Clean(s, r)) && Sees(env, rows)
             && AllOfAttr(ps, s, rows)
    requires LocsFrom(ps, x) != [] && TypeFits(ps, s, LocsFrom(ps, x)[0], t)
    ensures var l := LocsFrom(ps, x)[0]; var sigma := AssignmentOf(ps, s, rows);
            x in sigma && OperandValue(PlaceOf(TablesFor(ps, s), l.table, ReadCol(l.col, t)), env) == Cmp(sigma[x])
  {
    hide Clean, CellAt, AllOfAttr, Sees, LocsFrom, HasKind, Cmp, OperandValue, VarsOf;
    PlacesOfVar(ps, x);
    FirstIsFirst(ps, s, rows, x);
    var l := LocsFrom(ps, x)[0];
    PlaceMeans(ps, s, rows, env, x, l);
    if l.col == ColV {
      SameKindSameColumn(t.value, PatType(ps[l.table], s).value);
    }
  }

  ghost predicate ArgsMean(tbs: seq<TableBinding>, args: seq<FilterArg>, els: seq<Elem>, env: Env, sigma: Assignment) {
    |args| == |els| && forall i ::
                         0 <= i < |args| ==> OperandValue(ClosedArg(tbs, args[i]), env) == ArgValue(els[i], sigma)
  }

  lemma {:induction false} FilterMeans(tbs: seq<TableBinding>, f: Filter, x: Expr, env: Env, db: Db, sigma: Assignment)
    requires f.fn == x.fn && (Builtin(x.fn).Some? ==> |x.args| == 2)
    requires ArgsMean(tbs, f.args, x.args, env, sigma)
    ensures AtomHolds(ClosedFilter(tbs, f), env, db) <==> ExprHolds(x, sigma, db.udf)
  {
    hide OperandValue, ClosedArg, ArgValue, Compare;
    var os := ClosedArgs(tbs, f.args);
    assert OperandValues(os, env) == ArgValues(x.args, sigma);
    assert forall i :: 0 <= i < |os| ==> OperandValues(os, env)[i] == OperandValue(os[i], env);
  }

  /** A filter argument after the pass that gives constants a type. */
  function Retyped(a: FilterArg, t: Option<ValueType>): FilterArg {
    if a.FConst? && a.valueType.None? then FConst(a.c, t) else a
  }

  ghost predicate ArgFits(ps: seq<Pattern>, s: Schema, types: map<Var, ValueType>, el: Elem) {
    el.EVar? ==> LocsFrom(ps, el.x) != [] && TypeFits(ps, s, LocsFrom(ps, el.x)[0], TypeOf(types, el.x))
  }

  lemma {:induction false} ArgMeans(ps: seq<Pattern>, s: Schema, rows: seq<Row>, env: Env, types: map<Var, ValueType>,
                                    el: Elem, t: Option<ValueType>)
    requires s.Valid() && |rows| == |ps| && (forall r :: r in rows ==> Clean(s, r)) && Sees(env, rows)
             && AllOfAttr(ps, s, rows)
    requires ArgFits(ps, s, types, el)
    ensures OperandValue(ClosedArg(TablesFor(ps, s),
                                   Retyped(ResolvedArg(LocsFrom(ps, VarName(el)), types, {}, el), t)), env)
         == ArgValue(el, AssignmentOf(ps, s, rows))
  {
    hide Clean, AllOfAttr, Sees, LocsFrom, AssignmentOf, TypeFits, Schema.Valid, PlaceOf, ReadCol, Cmp, TablesFor;
    if el.EVar? {
      VarArgMeans(ps, s, rows, env, el.x, TypeOf(types, el.x));
    }
  }

  /** A variable has its first place among the patterns qs as well as among ps. */
  ghost predicate SameFirst(qs: seq<Pattern>, ps: seq<Pattern>, el: Elem) {
    el.EVar? ==> LocsFrom(qs, el.x) != [] && LocsFrom(ps, el.x) != [] && LocsFrom(qs, el.x)[0] == LocsFrom(ps, el.x)[0]
  }

  lemma {:induction false} NthArgMeans(ps: seq<Pattern>, s: Schema, rows: seq<Row>, env: Env, types: map<Var,
                                       ValueType>, qs: seq<Pattern>, x: Expr, i: int)
    requires s.Valid() && |rows| == |ps| && (forall r :: r in rows ==> Clean(s, r)) && Sees(env, rows)
             && AllOfAttr(ps, s, rows)
    requires 0 <= i < |x.args| && ArgFits(ps, s, types, x.args[i]) && SameFirst(qs, ps, x.args[i])
    ensures OperandValue(ClosedArg(TablesFor(ps, s), ResolvedFilter(qs, types, {}, x).args[i]), env)
            == ArgValue(x.args[i], AssignmentOf(ps, s, rows))
  {
    hide Clean, AllOfAttr, Sees, LocsFrom, AssignmentOf, ArgFits, OperandValue, ClosedArg, ArgValue, TablesFor,
      Schema.Valid, ResolvedArg;
    var args, el := ResolvedArgs(qs, types, {}, x.args), x.args[i];
    var t := InferredType(args);
    ArgMeans(ps, s, rows, env, types, el, t);
    SameFirstSameArg(LocsFrom(qs, VarName(el)), LocsFrom(ps, VarName(el)), types, el);
    assert Typed(args, t)[i] == Retyped(args[i], t);
  }

  lemma {:induction false} ArgsAllMean(ps: seq<Pattern>, s: Schema, rows: seq<Row>, env: Env, types: map<Var,
                                       ValueType>, qs: seq<Pattern>, x: Expr)
    requires s.Valid() && |rows| == |ps| && (forall r :: r in rows ==> Clean(s, r)) && Sees(env, rows)
             && AllOfAttr(ps, s, rows)
    requires forall el :: el in x.args ==> ArgFits(ps, s, types, el) && SameFirst(qs, ps, el)
    ensures ArgsMean(TablesFor(ps, s), ResolvedFilter(qs, types, {}, x).args, x.args, env, AssignmentOf(ps, s, rows))
  {
    hide Clean, AllOfAttr, Sees, AssignmentOf, ArgFits, SameFirst, OperandValue, ClosedArg, ArgValue, TablesFor,
      Schema.Valid, Typed, ResolvedArgs;
    forall i | 0 <= i < |x.args|
      ensures OperandValue(ClosedArg(TablesFor(ps, s), ResolvedFilter(qs, types, {}, x).args[i]), env)
              == ArgValue(x.args[i], AssignmentOf(ps, s, rows))
    {
      assert x.args[i] in x.args;
      NthArgMeans(ps, s, rows, env, types, qs, x, i);
    }
  }

  lemma {:induction false} SameFirstSameArg(locs: seq<Loc>, locs': seq<Loc>, types: map<Var, ValueType>, el: Elem)
    requires el.EVar? ==> locs != [] && locs' != [] && locs[0] == locs'[0]
    ensures ResolvedArg(locs, types, {}, el) == ResolvedArg(locs', types, {}, el)
  {
  }

  lemma {:induction false} ResolvedFilterMeans(ps: seq<Pattern>, s: Schema, rows: seq<Row>, env: Env, db: Db, x: Expr)
    requires s.Valid() && |rows| == |ps| && (forall r :: r in rows ==> Clean(s, r)) && Sees(env, rows)
             && AllOfAttr(ps, s, rows)
    requires OneKind(ps, s) && ExprOK(ps, s, x)
    ensures AtomHolds(ClosedFilter(TablesFor(ps, s), ResolvedFilter(ps, TypesFrom(ps, s, map[]), {}, x)), env, db)
            <==> ExprHolds(x, AssignmentOf(ps, s, rows), db.udf)
  {
    hide Clean, AllOfAttr, Sees, LocsFrom, OneKind, AssignmentOf, TypesFrom, VarsOf, ArgsMean, TypeFits, Schema.Valid,
      VarKind, TablesFor;
    var types := TypesFrom(ps, s, map[]);
    forall el | el in x.args ensures ArgFits(ps, s, types, el) && SameFirst(ps, ps, el) {
      if el.EVar? {
        RecordedTypeFits(ps, s, map[], el.x);
      }
    }
    ArgsAllMean(ps, s, rows, env, types, ps, x);
    FilterMeans(TablesFor(ps, s), ResolvedFilter(ps, types, {}, x), x, env, db, AssignmentOf(ps, s, rows));
  }

  lemma {:induction false} FiltersMean(ps: seq<Pattern>, s: Schema, rows: seq<Row>, env: Env, db: Db, xs: seq<Expr>)
    requires s.Valid() && |rows| == |ps| && (forall r :: r in rows ==> Clean(s, r)) && Sees(env, rows)
             && AllOfAttr(ps, s, rows)
    requires OneKind(ps, s) && forall x :: x in xs ==> ExprOK(ps, s, x)
    ensures AtomsHold(ClosedFilters(TablesFor(ps, s), ResolvedFilters(ps, TypesFrom(ps, s, map[]), {}, xs)), env, db)
            <==> forall x :: x in xs ==> ExprHolds(x, AssignmentOf(ps, s, rows), db.udf)
  {
    hide Clean, AllOfAttr, Sees, OneKind, AssignmentOf, TypesFrom, ExprOK, ExprHolds, AtomHolds, ClosedFilter,
      ResolvedFilter, Schema.Valid;
    var tbs, types := TablesFor(ps, s), TypesFrom(ps, s, map[]);
    var fs := ResolvedFilters(ps, types, {}, xs);
    forall i | 0 <= i < |xs|
      ensures AtomHolds(ClosedFilter(tbs, fs[i]), env, db) <==> ExprHolds(xs[i], AssignmentOf(ps, s, rows), db.udf)
    {
      assert xs[i] in xs;
      ResolvedFilterMeans(ps, s, rows, env, db, xs[i]);
    }
    if AtomsHold(ClosedFilters(tbs, fs), env, db) {
      forall x | x in xs ensures ExprHolds(x, AssignmentOf(ps, s, rows), db.udf) {
        var i :| 0 <= i < |xs| && xs[i] == x;
        assert fs[i] in fs && ClosedFilter(tbs, fs[i]) in ClosedFilters(tbs, fs);
      }
    }
  }

  // ---------------------------------------------------------------------
  // Results
  // ---------------------------------------------------------------------

  lemma {:induction false} TypeCodes(t: ValueType)
    ensures TypeOfCode(TypeCode(t)) == t
  {
  }

  /** The columns of one :find element read back as the value of its variable. */
  lemma {:induction false} FindMeans(ps: seq<Pattern>, s: Schema, rows: seq<Row>, env: Env, x: Var)
    requires s.Valid() && |rows| == |ps| && (forall r :: r in rows ==> Clean(s, r)) && Sees(env, rows)
             && AllOfAttr(ps, s, rows)
    requires OneKind(ps, s) && x in VarsOf(ps)
    ensures var f := ResolvedFind(ps, TypesFrom(ps, s, map[]), {}, x);
            var cols := OperandValues(FindCols(TablesFor(ps, s), f), env);
            |cols| == (if f.col == ColV then 2 else 1) && ReadFind(f, cols) == AssignmentOf(ps, s, rows)[x]
  {
    hide Clean, AllOfAttr, LocsFrom, OneKind, TypesFrom, VarsOf, Schema.Valid, TypedCellsOf;
    PlacesOfVar(ps, x);
    FirstIsFirst(ps, s, rows, x);
    var types := TypesFrom(ps, s, map[]);
    var l := LocsFrom(ps, x)[0];
    PlaceMeans(ps, s, rows, env, x, l);
    TypeCodes(rows[l.table].vtype);
    if l.col == ColV {
      if VarKind(ps, s, x, KRaw) {
        RawVarHasNoType(ps, s, x, l);
      } else {
        RecordedTypeFits(ps, s, map[], x);
        SameKindSameColumn(TypeOf(types, x).value, PatType(ps[l.table], s).value);
      }
    }
  }

  lemma {:induction false} RawVarHasNoType(ps: seq<Pattern>, s: Schema, x: Var, l: Loc)
    requires OneKind(ps, s) && VarKind(ps, s, x, KRaw) && StandsAt(ps, x, l.table, l.col)
    ensures KindAt(ps[l.table], s, l.col) == KRaw
    ensures x !in TypesFrom(ps, s, map[])
  {
    var i, col :| StandsAt(ps, x, i, col) && KindAt(ps[i], s, col) == KRaw;
    forall t ensures !TypedAt(ps, s, x, t) {
    }
    TypesAreOfPlaces(ps, s, map[], x);
  }

  lemma {:induction false} TypesAreOfPlaces(ps: seq<Pattern>, s: Schema, parent: map<Var, ValueType>, x: Var)
    ensures x in TypesFrom(ps, s, parent) ==> x in parent || TypedAt(ps, s, x, TypesFrom(ps, s, parent)[x])
  {
    if ps != [] {
      hide PatType;
      var n := |ps| - 1;
      TypesAreOfPlaces(ps[..n], s, parent, x);
      if ps[n].v == EVar(x) && PatType(ps[n], s).Some? {
        assert StandsAt(ps, x, n, ColV);
      } else if x in TypesFrom(ps[..n], s, parent) && x !in parent {
        var u := TypesFrom(ps[..n], s, parent)[x];
        var i :| StandsAt(ps[..n], x, i, ColV) && PatType(ps[..n][i], s) == Some(u);
        assert StandsAt(ps, x, i, ColV) && ps[..n][i] == ps[i];
      }
    }
  }
}
