/** Every placeholder of a compiled query takes the parameter that was pushed for it.
    The translator builds text and parameters side by side (translate.go); here the
    positional reading of the two is compared with the query that has its constants
    written in place. */
module Placeholders {
  import opened Prelude
  import opened Values
  import opened Store
  import opened Sql
  import opened Datalog
  import opened Algebra

  // ---------------------------------------------------------------------
  // The WHERE clause with constants in place
  // ---------------------------------------------------------------------

  function ClosedHole(alias: Alias, col: Column, v: Value, bound: bool): seq<Atom> {
    if bound then [ACmp(Eq, OCol(alias, col), OLit(Param(v)))] else []
  }

  function ClosedTable(tb: TableBinding): seq<Atom> {
    ClosedHole(tb.alias, ColA, IdValue(tb.attrID), tb.attrID != 0)
      + ClosedHole(tb.alias, ColE, tb.eBound, tb.eBound != VNil)
    + ClosedHole(tb.alias, ReadCol(ColV, tb.valueType), tb.vBound, tb.vBound != VNil)
    + ClosedHole(tb.alias, ColTx, tb.txBound, tb.txBound != VNil)
  }

  function ClosedTables(tbs: seq<TableBinding>): seq<Atom> {
    if tbs == [] then [] else ClosedTables(tbs[..|tbs| - 1]) + ClosedTable(tbs[|tbs| - 1])
  }

  function ClosedArg(tbs: seq<TableBinding>, a: FilterArg): Operand {
    if a.FConst? then OLit(Param(a.c)) else ArgOperand(tbs, a)
  }

  function ClosedArgs(tbs: seq<TableBinding>, args: seq<FilterArg>): (r: seq<Operand>)
    ensures |r| == |args|
    ensures forall i :: 0 <= i < |args| ==> r[i] == ClosedArg(tbs, args[i])
  {
    if args == [] then [] else [ClosedArg(tbs, args[0])] + ClosedArgs(tbs, args[1..])
  }

  function ClosedFilter(tbs: seq<TableBinding>, f: Filter): Atom {
    var os := ClosedArgs(tbs, f.args);
    if Builtin(f.fn).Some? && |os| == 2 then ACmp(Builtin(f.fn).value, os[0], os[1]) else AUdf(f.fn, os)
  }

  function ClosedFilters(tbs: seq<TableBinding>, fs: seq<Filter>): (r: seq<Atom>)
    ensures forall a :: a in r <==> exists f :: f in fs && a == ClosedFilter(tbs, f)
  {
    if fs == [] then [] else ClosedFilters(tbs, fs[..|fs| - 1]) + [ClosedFilter(tbs, fs[|fs| - 1])]
  }

  function ClosedBody(b: Body, joins: seq<Atom>): seq<Atom> {
    ClosedTables(b.tables) + joins + ClosedFilters(b.tables, b.filters)
  }

  function ClosedRaws(rs: seq<RawFilter>): seq<Frag> {
    if rs == [] then [] else ClosedRaws(rs[..|rs| - 1]) + [BindFrag(rs[|rs| - 1].frag, rs[|rs| - 1].params)]
  }

  function ClosedNot(outer: seq<TableBinding>, inner: Body): Frag {
    FNotExists(Froms(inner.tables), ClosedBody(inner, InnerJoinAtoms(outer, inner.tables, inner.joins)))
  }

  function ClosedNots(outer: seq<TableBinding>, nots: seq<Body>): (r: seq<Frag>)
    ensures forall f :: f in r <==> exists n :: n in nots && f == ClosedNot(outer, n)
  {
    if nots == [] then [] else ClosedNots(outer, nots[..|nots| - 1]) + [ClosedNot(outer, nots[|nots| - 1])]
  }

  function ClosedWhere(aq: Algebraic): seq<Frag> {
    Lift(ClosedBody(aq.body, JoinAtoms(aq.body.tables, aq.body.joins))) + ClosedRaws(aq.raws)
      + ClosedNots(aq.body.tables, aq.nots)
  }

  // ---------------------------------------------------------------------
  // Runs of atoms that take exactly their own parameters
  // ---------------------------------------------------------------------

  predicate Takes(atoms: seq<Atom>, ps: seq<Value>, closed: seq<Atom>) {
    AtomsHoles(atoms) == |ps| && BindAtoms(atoms, ps) == closed
  }

  predicate FragsTake(fs: seq<Frag>, ps: seq<Value>, closed: seq<Frag>) {
    FragsHoles(fs) == |ps| && BindFrags(fs, ps) == closed
  }

  lemma {:induction false} TakesConcat(a: seq<Atom>, p: seq<Value>, c: seq<Atom>, a': seq<Atom>, p': seq<Value>,
                                       c': seq<Atom>)
    requires Takes(a, p, c) && Takes(a', p', c')
    ensures Takes(a + a', p + p', c + c')
  {
    BindAtomsConcat(a, a', p, p');
  }

  lemma {:induction false} FragsTakeConcat(a: seq<Frag>, p: seq<Value>, c: seq<Frag>, a': seq<Frag>, p': seq<Value>,
                                           c': seq<Frag>)
    requires FragsTake(a, p, c) && FragsTake(a', p', c')
    ensures FragsTake(a + a', p + p', c + c')
  {
    BindFragsConcat(a, a', p, p');
  }

  lemma {:induction false} HoleTakes(alias: Alias, col: Column, v: Value, bound: bool)
    ensures Takes(Hole(alias, col, bound), One(v, bound), ClosedHole(alias, col, v, bound))
  {
    if bound {
      OneAtom(ACmp(Eq, OCol(alias, col), OParam), [v]);
    }
  }

  lemma {:induction false} OneAtom(a: Atom, ps: seq<Value>)
    requires AtomHoles(a) == |ps|
    ensures Takes([a], ps, [BindAtom(a, ps)])
  {
    assert [a][1..] == [];
  }

  lemma {:induction false} TableTakes(tb: TableBinding)
    ensures Takes(TableAtoms(tb), TableParams(tb), ClosedTable(tb))
  {
    var vc := ReadCol(ColV, tb.valueType);
    var a, e, v, t := tb.attrID != 0, tb.eBound != VNil, tb.vBound != VNil, tb.txBound != VNil;
    HoleTakes(tb.alias, ColA, IdValue(tb.attrID), a);
    HoleTakes(tb.alias, ColE, tb.eBound, e);
    HoleTakes(tb.alias, vc, tb.vBound, v);
    HoleTakes(tb.alias, ColTx, tb.txBound, t);
    hide Takes, Hole, One, ClosedHole, ReadCol, IdValue;
    var h1, h2, h3, h4 := Hole(tb.alias, ColA, a), Hole(tb.alias, ColE, e), Hole(tb.alias, vc, v),
      Hole(tb.alias, ColTx, t);
    var p1, p2, p3, p4 := One(IdValue(tb.attrID), a), One(tb.eBound, e), One(tb.vBound, v), One(tb.txBound, t);
    var c1, c2 := ClosedHole(tb.alias, ColA, IdValue(tb.attrID), a), ClosedHole(tb.alias, ColE, tb.eBound, e);
    var c3, c4 := ClosedHole(tb.alias, vc, tb.vBound, v), ClosedHole(tb.alias, ColTx, tb.txBound, t);
    TakesConcat(h1, p1, c1, h2, p2, c2);
    TakesConcat(h1 + h2, p1 + p2, c1 + c2, h3, p3, c3);
    TakesConcat(h1 + h2 + h3, p1 + p2 + p3, c1 + c2 + c3, h4, p4, c4);
  }

  lemma {:induction false} TablesTake(tbs: seq<TableBinding>)
    ensures Takes(TablesAtoms(tbs), TablesParams(tbs), ClosedTables(tbs))
  {
    if tbs != [] {
      var n := |tbs| - 1;
      TablesTake(tbs[..n]);
      TableTakes(tbs[n]);
      hide Takes, TableAtoms, TableParams, ClosedTable;
      TakesConcat(TablesAtoms(tbs[..n]), TablesParams(tbs[..n]), ClosedTables(tbs[..n]), TableAtoms(tbs[n]),
                  TableParams(tbs[n]), ClosedTable(tbs[n]));
    }
  }

  lemma {:induction false} ArgsTake(tbs: seq<TableBinding>, args: seq<FilterArg>)
    ensures HolesInAll(ArgOperands(tbs, args)) == |ArgParams(args)|
    ensures BindOperands(ArgOperands(tbs, args), ArgParams(args)) == ClosedArgs(tbs, args)
  {
    if args != [] {
      ArgsTake(tbs, args[1..]);
      assert ArgOperands(tbs, args)[1..] == ArgOperands(tbs, args[1..]);
      if args[0].FConst? {
        assert ArgParams(args)[1..] == ArgParams(args[1..]);
      }
    }
  }

  lemma {:induction false} TwoOperands(op: Op, os: seq<Operand>, ps: seq<Value>)
    requires |os| == 2
    ensures HolesInAll(os) == AtomHoles(ACmp(op, os[0], os[1]))
    ensures BindAtom(ACmp(op, os[0], os[1]), ps) == ACmp(op, BindOperands(os, ps)[0], BindOperands(os, ps)[1])
  {
    var rest := os[1..];
    assert rest == [os[1]] && rest[1..] == [];
    assert HolesInAll(rest) == HolesIn(os[1]);
  }

  lemma {:induction false} FilterTakes(tbs: seq<TableBinding>, f: Filter)
    ensures Takes([FilterAtom(tbs, f)], ArgParams(f.args), [ClosedFilter(tbs, f)])
  {
    ArgsTake(tbs, f.args);
    hide ArgOperand, ClosedArg;
    var os := ArgOperands(tbs, f.args);
    if Builtin(f.fn).Some? && |os| == 2 {
      TwoOperands(Builtin(f.fn).value, os, ArgParams(f.args));
    }
    OneAtom(FilterAtom(tbs, f), ArgParams(f.args));
  }

  lemma {:induction false} FiltersTake(tbs: seq<TableBinding>, fs: seq<Filter>)
    ensures Takes(FiltersAtoms(tbs, fs), FiltersParams(fs), ClosedFilters(tbs, fs))
  {
    if fs != [] {
      var n := |fs| - 1;
      FiltersTake(tbs, fs[..n]);
      FilterTakes(tbs, fs[n]);
      hide Takes, FilterAtom, ArgParams, ClosedFilter;
      TakesConcat(FiltersAtoms(tbs, fs[..n]), FiltersParams(fs[..n]), ClosedFilters(tbs, fs[..n]),
                  [FilterAtom(tbs, fs[n])], ArgParams(fs[n].args), [ClosedFilter(tbs, fs[n])]);
    }
  }

  lemma {:induction false} NoHoles(atoms: seq<Atom>)
    requires forall a :: a in atoms ==> a.ACmp? && !a.l.OParam? && !a.r.OParam?
    ensures Takes(atoms, [], atoms)
  {
    if atoms != [] {
      var a, rest := atoms[0], atoms[1..];
      assert a in atoms && BindAtom(a, []) == a;
      OneAtom(a, []);
      hide Takes;
      NoHoles(rest);
      TakesConcat([a], [], [a], rest, [], rest);
      assert [a] + rest == atoms;
    }
  }

  lemma {:induction false} BodyTakes(b: Body, joins: seq<Atom>)
    requires forall a :: a in joins ==> a.ACmp? && !a.l.OParam? && !a.r.OParam?
    ensures Takes(BodyAtoms(b, joins), BodyParams(b), ClosedBody(b, joins))
  {
    TablesTake(b.tables);
    NoHoles(joins);
    FiltersTake(b.tables, b.filters);
    hide Takes;
    var t, f := TablesParams(b.tables), FiltersParams(b.filters);
    TakesConcat(TablesAtoms(b.tables), t, ClosedTables(b.tables), joins, [], joins);
    TakesConcat(TablesAtoms(b.tables) + joins, t + [], ClosedTables(b.tables) + joins,
                FiltersAtoms(b.tables, b.filters), f, ClosedFilters(b.tables, b.filters));
    assert t + [] == t;
  }

  lemma {:induction false} LiftTakes(atoms: seq<Atom>, ps: seq<Value>)
    ensures BindFrags(Lift(atoms), ps) == Lift(BindAtoms(atoms, ps))
    ensures FragsHoles(Lift(atoms)) == AtomsHoles(atoms)
  {
    if atoms != [] {
      LiftTakes(atoms[1..], Drop(ps, AtomHoles(atoms[0])));
      assert Lift(atoms)[1..] == Lift(atoms[1..]);
    }
  }

  ghost predicate RawsAligned(rs: seq<RawFilter>) {
    forall r :: r in rs ==> FragHoles(r.frag) == |r.params|
  }

  lemma {:induction false} OneFrag(f: Frag, ps: seq<Value>)
    requires FragHoles(f) == |ps|
    ensures FragsTake([f], ps, [BindFrag(f, ps)])
  {
    assert [f][1..] == [];
  }

  lemma {:induction false} RawsTake(rs: seq<RawFilter>)
    requires RawsAligned(rs)
    ensures FragsTake(RawFrags(rs), RawParams(rs), ClosedRaws(rs))
  {
    if rs != [] {
      var n := |rs| - 1;
      RawsTake(rs[..n]);
      OneFrag(rs[n].frag, rs[n].params);
      hide FragsTake, FragHoles, BindFrag;
      FragsTakeConcat(RawFrags(rs[..n]), RawParams(rs[..n]), ClosedRaws(rs[..n]), [rs[n].frag], rs[n].params,
                      [BindFrag(rs[n].frag, rs[n].params)]);
    }
  }

  lemma {:induction false} NotsTake(outer: seq<TableBinding>, nots: seq<Body>)
    ensures FragsTake(NotFrags(outer, nots), NotsParams(nots), ClosedNots(outer, nots))
  {
    if nots != [] {
      var n := |nots| - 1;
      NotsTake(outer, nots[..n]);
      BodyTakes(nots[n], InnerJoinAtoms(outer, nots[n].tables, nots[n].joins));
      OneFrag(NotFrag(outer, nots[n]), BodyParams(nots[n]));
      hide FragsTake, BodyParams, NotFrag, ClosedNot;
      FragsTakeConcat(NotFrags(outer, nots[..n]), NotsParams(nots[..n]), ClosedNots(outer, nots[..n]),
                      [NotFrag(outer, nots[n])], BodyParams(nots[n]), [ClosedNot(outer, nots[n])]);
    }
  }

  /** For every query, temporal filters and negations included, the i-th placeholder of
      the text takes the i-th parameter, and that is the constant meant there. */
  lemma {:induction false} PlaceholdersTakeTheirParameters(aq: Algebraic)
    requires RawsAligned(aq.raws)
    ensures var q := Translated(aq);
            FragsHoles(q.where) == |q.params| && BindFrags(q.where, q.params) == ClosedWhere(aq)
  {
    var joins := JoinAtoms(aq.body.tables, aq.body.joins);
    BodyTakes(aq.body, joins);
    LiftTakes(BodyAtoms(aq.body, joins), BodyParams(aq.body));
    RawsTake(aq.raws);
    NotsTake(aq.body.tables, aq.nots);
    var a, p, c := Lift(BodyAtoms(aq.body, joins)), BodyParams(aq.body), Lift(ClosedBody(aq.body, joins));
    assert FragsTake(a, p, c);
    hide FragsTake, BodyAtoms, BodyParams, ClosedBody;
    FragsTakeConcat(a, p, c, RawFrags(aq.raws), RawParams(aq.raws), ClosedRaws(aq.raws));
    FragsTakeConcat(WhereFrags(aq), WhereParams(aq), c + ClosedRaws(aq.raws),
                    NotFrags(aq.body.tables, aq.nots), NotsParams(aq.nots), ClosedNots(aq.body.tables, aq.nots));
    FragsTakeMeans(Translated(aq).where, Translated(aq).params, ClosedWhere(aq));
  }

  lemma {:induction false} FragsTakeMeans(fs: seq<Frag>, ps: seq<Value>, closed: seq<Frag>)
    requires FragsTake(fs, ps, closed)
    ensures FragsHoles(fs) == |ps| && BindFrags(fs, ps) == closed
  {
  }
}
