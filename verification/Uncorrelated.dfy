/** (not ...) clauses that lose their correlation. When the first place of every shared
    variable is in an outer table whose index the subquery also has, buildNotExists reads
    the join inside the subquery (query/translate.go:303), and the clause no longer
    depends on the outer row. */
module Uncorrelated {
  import opened Prelude
  import opened Values
  import opened Store
  import opened Sql
  import opened Datalog
  import opened Algebra
  import opened Places
  import opened Placeholders
  import opened Compiler
  import opened Correctness
  import opened Substitution
  import opened AsOf

  predicate Inside(n: nat, o: Operand) {
    match o
    case OCol(al, _) => al.D? && 0 <= al.i < n
    case OCoalesce(al, _, _) => al.D? && 0 <= al.i < n
    case _ => true
  }

  ghost predicate AtomInside(n: nat, a: Atom) {
    match a
    case ACmp(_, l, r) => Inside(n, l) && Inside(n, r)
    case AUdf(_, args) => forall o :: o in args ==> Inside(n, o)
  }

  ghost predicate InnerEnv(n: nat, inner: Env) {
    forall i :: 0 <= i < n ==> D(i) in inner
  }

  lemma {:induction false} InsideSame(n: nat, o: Operand, env: Env, env': Env, inner: Env)
    requires Inside(n, o) && InnerEnv(n, inner)
    ensures OperandValue(o, env + inner) == OperandValue(o, env' + inner)
  {
  }

  lemma {:induction false} AtomSame(n: nat, a: Atom, env: Env, env': Env, inner: Env, db: Db)
    requires AtomInside(n, a) && InnerEnv(n, inner)
    ensures AtomHolds(a, env + inner, db) <==> AtomHolds(a, env' + inner, db)
  {
    hide Inside, InnerEnv, OperandValue, Compare;
    match a
    case ACmp(_, l, r) =>
      InsideSame(n, l, env, env', inner);
      InsideSame(n, r, env, env', inner);
    case AUdf(_, args) =>
      forall i | 0 <= i < |args| ensures OperandValue(args[i], env + inner) == OperandValue(args[i], env' + inner) {
        InsideSame(n, args[i], env, env', inner);
      }
      assert OperandValues(args, env + inner) == OperandValues(args, env' + inner);
  }

  ghost predicate OwnAliases(tbs: seq<TableBinding>) {
    forall i :: 0 <= i < |tbs| ==> tbs[i].alias == D(i)
  }

  lemma {:induction false} TablesInside(tbs: seq<TableBinding>, n: nat, a: Atom)
    requires OwnAliases(tbs) && |tbs| <= n && a in ClosedTables(tbs)
    ensures AtomInside(n, a)
  {
    var k := |tbs| - 1;
    if a in ClosedTables(tbs[..k]) {
      hide AtomInside, ClosedTable;
      TablesInside(tbs[..k], n, a);
    } else {
      hide ReadCol, IdValue;
      assert a in ClosedTable(tbs[k]);
    }
  }

  lemma {:induction false} FiltersInside(tbs: seq<TableBinding>, fs: seq<Filter>, a: Atom)
    requires OwnAliases(tbs) && a in ClosedFilters(tbs, fs)
    ensures AtomInside(|tbs|, a)
  {
    hide ReadCol;
    var f :| f in fs && a == ClosedFilter(tbs, f);
    assert forall i :: 0 <= i < |f.args| ==> Inside(|tbs|, ClosedArgs(tbs, f.args)[i]);
  }

  /** Every join is read inside the subquery. */
  ghost predicate AllInside(b: Body) {
    forall j :: j in b.joins ==> j.leftTable < |b.tables|
  }

  lemma {:induction false} BodyInside(outer: seq<TableBinding>, b: Body, a: Atom)
    requires OwnAliases(b.tables) && AllInside(b) && a in ClosedBody(b, InnerJoinAtoms(outer, b.tables, b.joins))
    ensures AtomInside(|b.tables|, a)
  {
    if a in ClosedTables(b.tables) {
      hide AtomInside;
      TablesInside(b.tables, |b.tables|, a);
    } else if a in ClosedFilters(b.tables, b.filters) {
      hide AtomInside;
      FiltersInside(b.tables, b.filters, a);
    } else {
      var j :| j in b.joins && a == InnerJoinAtom(outer, b.tables, j);
    }
  }

  /** The clause holds of every outer row or of none. */
  lemma {:induction false} NegationIgnoresItsRow(outer: seq<TableBinding>, b: Body, env: Env, env': Env, db: Db)
    requires OwnAliases(b.tables) && AllInside(b)
    ensures FragHolds(ClosedNot(outer, b), env, db) <==> FragHolds(ClosedNot(outer, b), env', db)
  {
    var n, atoms := |b.tables|, ClosedBody(b, InnerJoinAtoms(outer, b.tables, b.joins));
    hide ClosedBody, AtomHolds, AllInside;
    forall inner: Env | Ranges(Froms(b.tables), inner, db)
      ensures AtomsHold(atoms, env + inner, db) <==> AtomsHold(atoms, env' + inner, db) {
      assert InnerEnv(n, inner) by {
        var from := Froms(b.tables);
        assert forall i :: 0 <= i < n ==> from[i].alias == D(i);
      }
      hide Ranges, InnerEnv, Froms, AtomInside;
      forall a | a in atoms ensures AtomHolds(a, env + inner, db) <==> AtomHolds(a, env' + inner, db) {
        BodyInside(outer, b, a);
        AtomSame(n, a, env, env', inner, db);
      }
    }
  }

  // ---------------------------------------------------------------------
  // (not [?x :ident _]) when ?x first stands as the entity of the first pattern
  // ---------------------------------------------------------------------

  function Marked(x: Var, ident: Bytes): Pattern { Pattern(EVar(x), EConst(VString(ident)), EBlank, EBlank) }

  predicate HasAttr(s: Schema, ident: Bytes, r: Row) {
    ident in s.byIdent && r.fact.a == s.byIdent[ident].id
  }

  predicate HasAttrOf(s: Schema, ident: Bytes, d: DVal, r: Row) {
    HasAttr(s, ident, r) && d == Plain(SInt(r.fact.e))
  }

  ghost predicate MarkedSetting(ps: seq<Pattern>, s: Schema, x: Var, ident: Bytes, b: Body) {
    && SchemaOK(s) && ident in s.byIdent
    && LocsFrom(ps, x) != [] && LocsFrom(ps, x)[0] == Loc(0, ColE)
    && IsInner(ps, {}, s, [SPattern(Marked(x, ident))], b)
  }

  lemma {:induction false} MarkedParts(x: Var, ident: Bytes)
    ensures PatternsOf([SPattern(Marked(x, ident))]) == [Marked(x, ident)]
            && ExprsOf([SPattern(Marked(x, ident))]) == []
    ensures forall y :: LocsFrom([Marked(x, ident)], y) == if y == x then [Loc(0, ColE)] else []
    ensures VarsOf([Marked(x, ident)]) == {x}
  {
    var q := Marked(x, ident);
    assert [SPattern(q)][..0] == [] && [q][..0] == [];
    forall y ensures LocsFrom([q], y) == if y == x then [Loc(0, ColE)] else [] {
      assert LocsFrom([], y) == [];
    }
    assert Occurs(q) == [(x, ColE)];
    assert q in [q] && (x, ColE) in Occurs(q);
  }

  lemma {:induction false} MarkedJoin(ps: seq<Pattern>, s: Schema, x: Var, ident: Bytes, b: Body, j: Join)
    requires MarkedSetting(ps, s, x, ident, b)
    ensures j in b.joins <==> j == Join(x, 0, ColE, 0, ColE)
  {
    MarkedParts(x, ident);
    hide LocsFrom, PatternsOf, TablesFor, InnerFilters, TypesFrom;
  }

  lemma {:induction false} MarkedBody(ps: seq<Pattern>, s: Schema, x: Var, ident: Bytes, b: Body)
    requires MarkedSetting(ps, s, x, ident, b)
    ensures b.tables == [TableFor(0, Marked(x, ident), s)] && b.filters == []
  {
    MarkedParts(x, ident);
    hide LocsFrom, TypesFrom, TableFor, IsStarJoin, IsCorrelation;
    var q := Marked(x, ident);
    assert TablesFor([q][..0], s) == [];
    assert InnerFilters([SPattern(q)][..0], s, TypesFrom(ps, s, map[])) == [];
  }

  /** The subquery has two conditions: the attribute, and an entity equal to itself. */
  lemma {:induction false} MarkedAtoms(ps: seq<Pattern>, s: Schema, x: Var, ident: Bytes, b: Body, a: Atom)
    requires MarkedSetting(ps, s, x, ident, b)
    ensures a in ClosedBody(b, InnerJoinAtoms(TablesFor(ps, s), b.tables, b.joins))
            <==> a == ACmp(Eq, OCol(D(0), ColA), OLit(Param(IdValue(s.byIdent[ident].id))))
                 || a == ACmp(Eq, OCol(D(0), ColE), OCol(D(0), ColE))
  {
    MarkedBody(ps, s, x, ident, b);
    var tb := b.tables[0];
    assert tb.attrID == s.byIdent[ident].id && tb.attrID != 0;
    assert ClosedTables(b.tables) == ClosedTable(tb) by { assert ClosedTables(b.tables[..0]) == []; }
    forall j ensures j in b.joins <==> j == Join(x, 0, ColE, 0, ColE) { MarkedJoin(ps, s, x, ident, b, j); }
    assert forall j :: j in b.joins
             ==> InnerJoinAtom(TablesFor(ps, s), b.tables, j) == ACmp(Eq, OCol(D(0), ColE), OCol(D(0), ColE));
    assert Join(x, 0, ColE, 0, ColE) in b.joins;
    hide MarkedSetting, IdValue;
  }

  /** The compiled clause asks whether anything has the attribute. */
  lemma {:induction false} MarkedCompiled(ps: seq<Pattern>, s: Schema, x: Var, ident: Bytes, b: Body, env: Env, db: Db)
    requires MarkedSetting(ps, s, x, ident, b)
    ensures FragHolds(ClosedNot(TablesFor(ps, s), b), env, db) <==> !exists r :: r in db.current && HasAttr(s, ident, r)
  {
    MarkedBody(ps, s, x, ident, b);
    var id, from, where := s.byIdent[ident].id, Froms(b.tables),
      ClosedBody(b, InnerJoinAtoms(TablesFor(ps, s), b.tables, b.joins));
    assert from == [From(CurrentDatoms, D(0))];
    forall a
      ensures a in where
              <==> a == ACmp(Eq, OCol(D(0), ColA), OLit(Param(IdValue(id))))
                   || a == ACmp(Eq, OCol(D(0), ColE), OCol(D(0), ColE))
    {
      MarkedAtoms(ps, s, x, ident, b, a);
    }
    assert Param(IdValue(id)) == SInt(id) && SchemaOK(s) && ident in s.byIdent;
    hide MarkedSetting, ClosedBody, Froms;
    forall inner: Env | Ranges(from, inner, db)
      ensures D(0) in inner && inner[D(0)] in db.current
              && (AtomsHold(where, env + inner, db) <==> HasAttr(s, ident, inner[D(0)]))
    {
      assert from[0].alias == D(0);
      TwoAtoms(where, id, inner[D(0)], env + inner, db);
    }
    if r :| r in db.current && HasAttr(s, ident, r) {
      var inner: Env := map[D(0) := r];
      assert from[0].alias == D(0);
      assert Ranges(from, inner, db);
    }
  }

  lemma {:induction false} TwoAtoms(where: seq<Atom>, id: int, r: Row, env: Env, db: Db)
    requires forall a :: a in where
               <==> a == ACmp(Eq, OCol(D(0), ColA), OLit(SInt(id))) || a == ACmp(Eq, OCol(D(0), ColE), OCol(D(0), ColE))
    requires D(0) in env && env[D(0)] == r
    ensures AtomsHold(where, env, db) <==> r.fact.a == id
  {
    var a1, a2 := ACmp(Eq, OCol(D(0), ColA), OLit(SInt(id))), ACmp(Eq, OCol(D(0), ColE), OCol(D(0), ColE));
    assert a1 in where && a2 in where;
    IntEq(r.fact.a, id);
    IntEq(r.fact.e, r.fact.e);
    assert AtomHolds(a1, env, db) <==> r.fact.a == id;
    assert AtomHolds(a2, env, db);
  }

  /** In Datalog the clause asks whether the entity in question has it. */
  lemma {:induction false} MarkedMeans(s: Schema, x: Var, ident: Bytes, sigma: Assignment, rel: set<Row>,
                                       udf: (Bytes, seq<SqlVal>) -> bool)
    requires ident in s.byIdent && x in sigma
    ensures NotHolds([SPattern(Marked(x, ident))], s, sigma, rel, udf)
            <==> !exists r :: r in rel && HasAttrOf(s, ident, sigma[x], r)
  {
    MarkedParts(x, ident);
    var q, body := Marked(x, ident), [SPattern(Marked(x, ident))];
    hide PatternsOf, ExprsOf, VarsOf;
    forall tau: Assignment, r | tau.Keys == {x}
      ensures Matches(q, s, tau, r) <==> HasAttrOf(s, ident, tau[x], r)
    {
      if HasAttrOf(s, ident, tau[x], r) {
        assert forall y, col :: OccursAt(q, y, col) ==> y == x && col == ColE;
      }
      assert OccursAt(q, x, ColE);
    }
    if r :| r in rel && HasAttrOf(s, ident, sigma[x], r) {
      var tau: Assignment := map[x := sigma[x]];
      assert tau.Keys == {x} && Agree(sigma, tau);
      assert Matches(q, s, tau, r);
      assert PatternHolds(q, s, tau, rel);
      assert BodyHolds(PatternsOf(body), ExprsOf(body), s, tau, rel, udf);
    }
    if tau: Assignment :| tau.Keys == VarsOf(PatternsOf(body)) && Agree(sigma, tau)
                          && BodyHolds(PatternsOf(body), ExprsOf(body), s, tau, rel, udf) {
      assert q in PatternsOf(body) && PatternHolds(q, s, tau, rel);
      var r :| r in rel && Matches(q, s, tau, r);
      assert tau.Keys == {x} && x in tau;
      assert HasAttrOf(s, ident, sigma[x], r);
    }
  }

  /** So the two agree exactly when the entity has the attribute or nothing has it: of two
      entities one with the attribute, the other is wrongly left out of the answers. */
  lemma {:induction false} NegationForgetsExactly(ps: seq<Pattern>, s: Schema, x: Var, ident: Bytes, b: Body,
                                                  env: Env, db: Db, sigma: Assignment)
    requires MarkedSetting(ps, s, x, ident, b) && x in sigma
    ensures (FragHolds(ClosedNot(TablesFor(ps, s), b), env, db)
             <==> NotHolds([SPattern(Marked(x, ident))], s, sigma, db.current, db.udf))
            <==> (exists r :: r in db.current && HasAttrOf(s, ident, sigma[x], r))
                 || !exists r :: r in db.current && HasAttr(s, ident, r)
  {
    MarkedCompiled(ps, s, x, ident, b, env, db);
    MarkedMeans(s, x, ident, sigma, db.current, db.udf);
    hide FragHolds, NotHolds, ClosedNot, MarkedSetting;
  }
}
