/** The translator (query/translate.go) as it runs: conditions and parameters are
    appended side by side. Each method is proved against the functions of Algebra; an
    index that is no table, where the original panics, is an error. */
module Translate {
  import opened Prelude
  import opened Values
  import opened Store
  import opened Sql
  import opened Datalog
  import opened Algebra

  datatype TranslateError = NoTables | EmptyNot | NoSuchTable

  predicate Indexed(tbs: seq<TableBinding>, i: int) { 0 <= i < |tbs| }

  ghost predicate FilterIndexed(tbs: seq<TableBinding>, f: Filter) {
    forall a :: a in f.args && a.FVar? ==> Indexed(tbs, a.table)
  }

  ghost predicate BodyIndexed(b: Body) {
    && (forall j :: j in b.joins ==> Indexed(b.tables, j.leftTable) && Indexed(b.tables, j.rightTable))
    && (forall f :: f in b.filters ==> FilterIndexed(b.tables, f))
  }

  /** The left side of a join of a subquery is looked up inside when its index is small. */
  predicate JoinIndexed(outer: seq<TableBinding>, inner: seq<TableBinding>, j: Join) {
    Indexed(inner, j.rightTable) && 0 <= j.leftTable && (j.leftTable < |inner| || j.leftTable < |outer|)
  }

  ghost predicate NotIndexed(outer: seq<TableBinding>, b: Body) {
    && b.tables != []
    && (forall j :: j in b.joins ==> JoinIndexed(outer, b.tables, j))
    && (forall f :: f in b.filters ==> FilterIndexed(b.tables, f))
  }

  ghost predicate Translatable(aq: Algebraic) {
    && aq.body.tables != []
    && (forall m :: m in aq.find ==> Indexed(aq.body.tables, m.table))
    && BodyIndexed(aq.body)
    && (forall n :: n in aq.nots ==> NotIndexed(aq.body.tables, n))
  }

  // ---------------------------------------------------------------------
  // SELECT and FROM
  // ---------------------------------------------------------------------

  /** The typed column of a value, when there is one. */
  method TypedOr(col: Column, t: Option<ValueType>) returns (c: Column)
    ensures c == ReadCol(col, t)
  {
    c := col;
    if col == ColV && t.Some? {
      var tc := TypedColumnOf(t.value);
      if tc.Some? {
        c := ColumnOf(tc.value);
      }
    }
  }

  method BuildSelect(tbs: seq<TableBinding>, find: seq<FindMapping>) returns (r: Result<seq<Operand>, TranslateError>)
    ensures r.Ok? <==> forall m :: m in find ==> Indexed(tbs, m.table)
    ensures r.Ok? ==> r.value == SelectCols(tbs, find)
  {
    var cols := [];
    for i := 0 to |find|
      invariant cols == SelectCols(tbs, find[..i])
      invariant forall m :: m in find[..i] ==> Indexed(tbs, m.table)
    {
      hide ReadCol;
      var m := find[i];
      if !Indexed(tbs, m.table) {
        return Err(NoSuchTable);
      }
      var alias := tbs[m.table].alias;
      var c := TypedOr(m.col, m.valueType);
      assert ReadCol(ColVType, m.valueType) == ColVType
        && (m.col != ColV ==> ReadCol(m.col, m.valueType) == m.col) by { ReadOther(m.col, m.valueType); }
      cols := cols + [OCol(alias, c)];
      if m.col == ColV {
        cols := cols + [OCol(alias, ColVType)];
      }
      assert find[..i + 1][..i] == find[..i];
    }
    assert find[..|find|] == find;
    r := Ok(cols);
  }

  lemma {:induction false} ReadOther(col: Column, t: Option<ValueType>)
    ensures ReadCol(ColVType, t) == ColVType && (col != ColV ==> ReadCol(col, t) == col)
  {
  }

  method BuildFrom(tbs: seq<TableBinding>) returns (from: seq<From>)
    ensures from == Froms(tbs)
  {
    from := [];
    for i := 0 to |tbs|
      invariant from == Froms(tbs[..i])
    {
      from := from + [From(tbs[i].table, tbs[i].alias)];
      assert tbs[..i + 1][..i] == tbs[..i];
    }
    assert tbs[..|tbs|] == tbs;
  }

  // ---------------------------------------------------------------------
  // WHERE
  // ---------------------------------------------------------------------

  /** A condition on one column and its parameter, if the constant is bound. */
  method Condition(atoms: seq<Atom>, params: seq<Value>, alias: Alias, col: Column, v: Value, bound: bool)
    returns (atoms': seq<Atom>, params': seq<Value>)
    ensures atoms' == atoms + Hole(alias, col, bound) && params' == params + One(v, bound)
  {
    atoms', params' := atoms, params;
    if bound {
      atoms', params' := atoms + [ACmp(Eq, OCol(alias, col), OParam)], params + [v];
    }
  }

  /** The constants bound in a table: attribute, entity, value, transaction. */
  method OneTableConditions(tb: TableBinding) returns (atoms: seq<Atom>, params: seq<Value>)
    ensures atoms == TableAtoms(tb) && params == TableParams(tb)
  {
    hide ReadCol, IdValue, Hole, One;
    atoms, params := Condition([], [], tb.alias, ColA, IdValue(tb.attrID), tb.attrID != 0);
    atoms, params := Condition(atoms, params, tb.alias, ColE, tb.eBound, tb.eBound != VNil);
    var c := TypedOr(ColV, tb.valueType);
    atoms, params := Condition(atoms, params, tb.alias, c, tb.vBound, tb.vBound != VNil);
    atoms, params := Condition(atoms, params, tb.alias, ColTx, tb.txBound, tb.txBound != VNil);
  }

  method TableConditions(tbs: seq<TableBinding>) returns (atoms: seq<Atom>, params: seq<Value>)
    ensures atoms == TablesAtoms(tbs) && params == TablesParams(tbs)
  {
    hide TableAtoms, TableParams;
    atoms, params := [], [];
    for i := 0 to |tbs|
      invariant atoms == TablesAtoms(tbs[..i]) && params == TablesParams(tbs[..i])
    {
      var a, p := OneTableConditions(tbs[i]);
      atoms, params := atoms + a, params + p;
      assert tbs[..i + 1][..i] == tbs[..i];
    }
    assert tbs[..|tbs|] == tbs;
  }

  /** buildFilter: variables become columns, constants placeholders. */
  method BuildFilter(tbs: seq<TableBinding>, f: Filter) returns (r: Result<(Atom, seq<Value>), TranslateError>)
    ensures r.Ok? <==> FilterIndexed(tbs, f)
    ensures r.Ok? ==> r.value == (FilterAtom(tbs, f), ArgParams(f.args))
  {
    var refs, params := [], [];
    for i := 0 to |f.args|
      invariant |refs| == i && forall k :: 0 <= k < i ==> refs[k] == ArgOperand(tbs, f.args[k])
      invariant params + ArgParams(f.args[i..]) == ArgParams(f.args)
      invariant forall k :: 0 <= k < i && f.args[k].FVar? ==> Indexed(tbs, f.args[k].table)
    {
      var a := f.args[i];
      assert f.args[i..][1..] == f.args[i + 1..];
      match a
      case FVar(_, t, col, vt) =>
        if !Indexed(tbs, t) {
          return Err(NoSuchTable);
        }
        var c := TypedOr(col, vt);
        refs := refs + [OCol(tbs[t].alias, c)];
      case FConst(c, _) =>
        refs, params := refs + [OParam], params + [c];
    }
    assert refs == ArgOperands(tbs, f.args);
    assert params + [] == params;
    if Builtin(f.fn).Some? && |refs| == 2 {
      return Ok((ACmp(Builtin(f.fn).value, refs[0], refs[1]), params));
    }
    return Ok((AUdf(f.fn, refs), params));
  }

  method BuildFilters(tbs: seq<TableBinding>, fs: seq<Filter>)
                      returns (r: Result<(seq<Atom>, seq<Value>), TranslateError>)
    ensures r.Ok? <==> forall f :: f in fs ==> FilterIndexed(tbs, f)
    ensures r.Ok? ==> r.value == (FiltersAtoms(tbs, fs), FiltersParams(fs))
  {
    hide FilterIndexed, FilterAtom, ArgParams;
    var atoms, params := [], [];
    for i := 0 to |fs|
      invariant atoms == FiltersAtoms(tbs, fs[..i]) && params == FiltersParams(fs[..i])
      invariant forall f :: f in fs[..i] ==> FilterIndexed(tbs, f)
    {
      var f := BuildFilter(tbs, fs[i]);
      if f.Err? {
        return Err(f.error);
      }
      atoms, params := atoms + [f.value.0], params + f.value.1;
      assert fs[..i + 1][..i] == fs[..i];
    }
    assert fs[..|fs|] == fs;
    r := Ok((atoms, params));
  }

  method BuildJoinAtoms(tbs: seq<TableBinding>, js: seq<Join>) returns (r: Result<seq<Atom>, TranslateError>)
    ensures r.Ok? <==> forall j :: j in js ==> Indexed(tbs, j.leftTable) && Indexed(tbs, j.rightTable)
    ensures r.Ok? ==> r.value == JoinAtoms(tbs, js)
  {
    var atoms := [];
    for i := 0 to |js|
      invariant atoms == JoinAtoms(tbs, js[..i])
      invariant forall j :: j in js[..i] ==> Indexed(tbs, j.leftTable) && Indexed(tbs, j.rightTable)
    {
      var j := js[i];
      if !Indexed(tbs, j.leftTable) || !Indexed(tbs, j.rightTable) {
        return Err(NoSuchTable);
      }
      var l := TypedOr(j.leftCol, tbs[j.leftTable].valueType);
      var rt := TypedOr(j.rightCol, tbs[j.rightTable].valueType);
      atoms := atoms + [ACmp(Eq, OCol(tbs[j.leftTable].alias, l), OCol(tbs[j.rightTable].alias, rt))];
      hide ReadCol;
      assert js[..i + 1][..i] == js[..i];
    }
    assert js[..|js|] == js;
    r := Ok(atoms);
  }

  /** buildWhere: tables, joins, filters, raw filters. */
  method BuildWhere(aq: Algebraic) returns (r: Result<(seq<Frag>, seq<Value>), TranslateError>)
    ensures r.Ok? <==> BodyIndexed(aq.body)
    ensures r.Ok? ==> r.value == (WhereFrags(aq), WhereParams(aq))
  {
    hide TablesAtoms, TablesParams, JoinAtoms, FiltersAtoms, FiltersParams, FilterIndexed, Lift;
    var b := aq.body;
    var atoms, params := TableConditions(b.tables);
    var joins := BuildJoinAtoms(b.tables, b.joins);
    if joins.Err? {
      return Err(joins.error);
    }
    var filters := BuildFilters(b.tables, b.filters);
    if filters.Err? {
      return Err(filters.error);
    }
    var frags := Lift(atoms + joins.value + filters.value.0);
    params := params + filters.value.1;
    ghost var f0, p0 := frags, params;
    for i := 0 to |aq.raws|
      invariant frags == f0 + RawFrags(aq.raws[..i]) && params == p0 + RawParams(aq.raws[..i])
    {
      frags, params := frags + [aq.raws[i].frag], params + aq.raws[i].params;
      assert aq.raws[..i + 1][..i] == aq.raws[..i];
    }
    assert aq.raws[..|aq.raws|] == aq.raws;
    r := Ok((frags, params));
  }

  // ---------------------------------------------------------------------
  // NOT EXISTS
  // ---------------------------------------------------------------------

  method BuildInnerJoinAtoms(outer: seq<TableBinding>, inner: seq<TableBinding>, js: seq<Join>)
                             returns (r: Result<seq<Atom>, TranslateError>)
    ensures r.Ok? <==> forall j :: j in js ==> JoinIndexed(outer, inner, j)
    ensures r.Ok? ==> r.value == InnerJoinAtoms(outer, inner, js)
  {
    var atoms := [];
    for i := 0 to |js|
      invariant atoms == InnerJoinAtoms(outer, inner, js[..i])
      invariant forall j :: j in js[..i] ==> JoinIndexed(outer, inner, j)
    {
      var j := js[i];
      if !Indexed(inner, j.rightTable) || j.leftTable < 0 || (|inner| <= j.leftTable && |outer| <= j.leftTable) {
        assert j in js;
        return Err(NoSuchTable);
      }
      var right := OCol(inner[j.rightTable].alias, j.rightCol);
      if j.leftTable < |inner| {
        atoms := atoms + [ACmp(Eq, OCol(inner[j.leftTable].alias, j.leftCol), right)];
      } else {
        atoms := atoms + [ACmp(Eq, OCol(outer[j.leftTable].alias, j.leftCol), right)];
      }
      assert js[..i + 1][..i] == js[..i];
    }
    assert js[..|js|] == js;
    r := Ok(atoms);
  }

  /** buildNotExists. */
  method BuildNotExists(outer: seq<TableBinding>, inner: Body) returns (r: Result<(Frag, seq<Value>), TranslateError>)
    ensures r.Ok? <==> NotIndexed(outer, inner)
    ensures r.Ok? ==> r.value == (NotFrag(outer, inner), BodyParams(inner))
    ensures inner.tables == [] ==> r == Err(EmptyNot)
  {
    if inner.tables == [] {
      return Err(EmptyNot);
    }
    var from := BuildFrom(inner.tables);
    var atoms, params := TableConditions(inner.tables);
    var joins := BuildInnerJoinAtoms(outer, inner.tables, inner.joins);
    if joins.Err? {
      return Err(joins.error);
    }
    var filters := BuildFilters(inner.tables, inner.filters);
    if filters.Err? {
      return Err(filters.error);
    }
    r := Ok((FNotExists(from, atoms + joins.value + filters.value.0), params + filters.value.1));
  }

  // ---------------------------------------------------------------------
  // The whole query
  // ---------------------------------------------------------------------

  /** Translate and translateCore: text and parameters of the WHERE clause, then of each
      negation. */
  method Translate(aq: Algebraic) returns (r: Result<SqlQuery, TranslateError>)
    ensures r.Ok? <==> Translatable(aq)
    ensures r.Ok? ==> r.value == Translated(aq)
    ensures aq.body.tables == [] ==> r == Err(NoTables)
  {
    hide SelectCols, Froms, WhereFrags, WhereParams, NotFrag, BodyParams, BodyIndexed, NotIndexed;
    var tbs := aq.body.tables;
    if tbs == [] {
      return Err(NoTables);
    }
    var cols := BuildSelect(tbs, aq.find);
    if cols.Err? {
      return Err(cols.error);
    }
    var from := BuildFrom(tbs);
    var w := BuildWhere(aq);
    if w.Err? {
      return Err(w.error);
    }
    var (frags, params) := w.value;
    for i := 0 to |aq.nots|
      invariant frags == WhereFrags(aq) + NotFrags(tbs, aq.nots[..i])
                && params == WhereParams(aq) + NotsParams(aq.nots[..i])
      invariant forall n :: n in aq.nots[..i] ==> NotIndexed(tbs, n)
    {
      var n := BuildNotExists(tbs, aq.nots[i]);
      if n.Err? {
        return Err(n.error);
      }
      frags, params := frags + [n.value.0], params + n.value.1;
      assert aq.nots[..i + 1][..i] == aq.nots[..i];
    }
    assert aq.nots[..|aq.nots|] == aq.nots;
    r := Ok(SqlQuery(cols.value, from, frags, params));
  }
}
