/** The algebraic form between Datalog and SQL (query/algebrize.go), what the
    algebrizer computes, and what the translator makes of it. */
module Algebra {
  import opened Prelude
  import opened Values
  import opened Store
  import opened Sql
  import opened Datalog

  // ---------------------------------------------------------------------
  // The algebraic query
  // ---------------------------------------------------------------------

  /** Where a variable stands. Table -1 is the marker of an :in variable. */
  datatype Loc = Loc(table: int, col: Column)

  /** One datom pattern. An attrID of 0 and a bound of VNil mean "not bound". */
  datatype TableBinding = TableBinding(alias: Alias, table: Table, attrID: int, valueType: Option<ValueType>,
                                       eBound: Value, vBound: Value, txBound: Value, pattern: Pattern)

  datatype Join = Join(x: Var, leftTable: int, leftCol: Column, rightTable: int, rightCol: Column)

  datatype FilterArg =
    | FVar(x: Var, table: int, col: Column, valueType: Option<ValueType>)
    | FConst(c: Value, valueType: Option<ValueType>)

  datatype Filter = Filter(fn: Bytes, args: seq<FilterArg>)

  datatype RawFilter = RawFilter(frag: Frag, params: seq<Value>)

  datatype FindMapping = FindMapping(x: Var, table: int, col: Column, valueType: Option<ValueType>)

  /** Tables, joins and filters: all of a query that a (not ...) body also has. */
  datatype Body = Body(tables: seq<TableBinding>, joins: seq<Join>, filters: seq<Filter>)

  datatype Algebraic = Algebraic(find: seq<FindMapping>, body: Body, raws: seq<RawFilter>, nots: seq<Body>)

  // ---------------------------------------------------------------------
  // What the algebrizer computes
  // ---------------------------------------------------------------------

  function BoundOf(el: Elem): Value {
    if el.EConst? then el.c else VNil
  }

  function TableFor(i: int, p: Pattern, s: Schema): TableBinding {
    var known := p.a.EConst? && p.a.c.VString? && p.a.c.s in s.byIdent;
    TableBinding(D(i), CurrentDatoms, if known then s.byIdent[p.a.c.s].id else 0, PatType(p, s),
                 BoundOf(p.e), BoundOf(p.v), BoundOf(p.tx), p)
  }

  function TablesFor(ps: seq<Pattern>, s: Schema): (tbs: seq<TableBinding>)
    ensures |tbs| == |ps|
    ensures forall i :: 0 <= i < |ps| ==> tbs[i] == TableFor(i, ps[i], s)
  {
    if ps == [] then [] else TablesFor(ps[..|ps| - 1], s) + [TableFor(|ps| - 1, ps[|ps| - 1], s)]
  }

  function LocAt(i: int, el: Elem, col: Column, x: Var): seq<Loc> {
    if el == EVar(x) then [Loc(i, col)] else []
  }

  function PatLocs(i: int, p: Pattern, x: Var): seq<Loc> {
    LocAt(i, p.e, ColE, x) + LocAt(i, p.a, ColA, x) + LocAt(i, p.v, ColV, x) + LocAt(i, p.tx, ColTx, x)
  }

  /** Every place of a variable, in the order the patterns are added. */
  function LocsFrom(ps: seq<Pattern>, x: Var): seq<Loc> {
    if ps == [] then [] else LocsFrom(ps[..|ps| - 1], x) + PatLocs(|ps| - 1, ps[|ps| - 1], x)
  }

  /** The type a variable takes from the last typed value position it stands in. */
  function TypesFrom(ps: seq<Pattern>, s: Schema, parent: map<Var, ValueType>): map<Var, ValueType> {
    if ps == [] then parent
    else
      var p, rest := ps[|ps| - 1], TypesFrom(ps[..|ps| - 1], s, parent);
      if p.v.EVar? && PatType(p, s).Some? then rest[p.v.x := PatType(p, s).value] else rest
  }

  function TypeOf(types: map<Var, ValueType>, x: Var): Option<ValueType> {
    if x in types then Some(types[x]) else None
  }

  /** A star join: from the first place of a variable to a later one. */
  ghost predicate IsStarJoin(ps: seq<Pattern>, j: Join) {
    var locs := LocsFrom(ps, j.x);
    exists k :: 1 <= k < |locs| && j == StarJoin(j.x, locs, k)
  }

  function StarJoin(x: Var, locs: seq<Loc>, k: int): Join
    requires 1 <= k < |locs|
  {
    Join(x, locs[0].table, locs[0].col, locs[k].table, locs[k].col)
  }

  /** Filter arguments before constants take the type of a variable beside them. */
  function ResolvedArg(locs: seq<Loc>, types: map<Var, ValueType>, ins: set<Var>, el: Elem): FilterArg {
    match el
    case EVar(x) =>
      if x in ins then FVar(x, -1, ColE, TypeOf(types, x))
      else if locs == [] then FConst(VNil, None)
      else FVar(x, locs[0].table, locs[0].col, TypeOf(types, x))
    case EConst(c) => FConst(c, None)
    case EBlank => FConst(VNil, None)
  }

  function ResolvedArgs(ps: seq<Pattern>, types: map<Var, ValueType>, ins: set<Var>,
                        args: seq<Elem>): (r: seq<FilterArg>)
    ensures |r| == |args|
    ensures forall i :: 0 <= i < |args| ==> r[i] == ResolvedArg(LocsFrom(ps, VarName(args[i])), types, ins, args[i])
  {
    if args == [] then []
    else ResolvedArgs(ps, types, ins, args[..|args| - 1])
         + [ResolvedArg(LocsFrom(ps, VarName(args[|args| - 1])), types, ins, args[|args| - 1])]
  }

  function VarName(el: Elem): Var {
    if el.EVar? then el.x else []
  }

  /** The first type found among the variables of a filter. */
  function InferredType(args: seq<FilterArg>): Option<ValueType> {
    if args == [] then None
    else if args[0].FVar? && args[0].valueType.Some? then args[0].valueType
    else InferredType(args[1..])
  }

  function Typed(args: seq<FilterArg>, t: Option<ValueType>): (r: seq<FilterArg>)
    ensures |r| == |args|
    ensures forall i :: 0 <= i < |args|
              ==> r[i] == if args[i].FConst? && args[i].valueType.None? then FConst(args[i].c, t) else args[i]
  {
    if args == [] then []
    else [if args[0].FConst? && args[0].valueType.None? then FConst(args[0].c, t) else args[0]] + Typed(args[1..], t)
  }

  function ResolvedFilter(ps: seq<Pattern>, types: map<Var, ValueType>, ins: set<Var>, x: Expr): Filter {
    var args := ResolvedArgs(ps, types, ins, x.args);
    Filter(x.fn, Typed(args, InferredType(args)))
  }

  function ResolvedFilters(ps: seq<Pattern>, types: map<Var, ValueType>, ins: set<Var>, xs: seq<Expr>): (r: seq<Filter>)
    ensures |r| == |xs|
    ensures forall i :: 0 <= i < |xs| ==> r[i] == ResolvedFilter(ps, types, ins, xs[i])
  {
    if xs == [] then []
    else ResolvedFilters(ps, types, ins, xs[..|xs| - 1]) + [ResolvedFilter(ps, types, ins, xs[|xs| - 1])]
  }

  /** For an :in variable the place found is the marker, which is no table. */
  function ResolvedFind(ps: seq<Pattern>, types: map<Var, ValueType>, ins: set<Var>, x: Var): FindMapping {
    var locs := LocsFrom(ps, x);
    if x in ins || locs == [] then FindMapping(x, -1, ColE, TypeOf(types, x))
      else FindMapping(x, locs[0].table, locs[0].col, TypeOf(types, x))
  }

  // ---------------------------------------------------------------------
  // (not ...) bodies
  // ---------------------------------------------------------------------

  /** A subquery resolves each filter against the patterns before it. */
  function InnerFilters(body: seq<Simple>, s: Schema, parent: map<Var, ValueType>): seq<Filter> {
    if body == [] then []
    else
      var n := |body| - 1;
      var ps := PatternsOf(body[..n]);
      InnerFilters(body[..n], s, parent)
      + if body[n].SExpr? then [ResolvedFilter(ps, TypesFrom(ps, s, parent), {}, body[n].x)] else []
  }

  /** A join from the outer query's first place of a shared variable to the inner one's. */
  ghost predicate IsCorrelation(ps: seq<Pattern>, ins: set<Var>, qs: seq<Pattern>, j: Join) {
    var outer, inner := LocsFrom(ps, j.x), LocsFrom(qs, j.x);
    && inner != []
    && (if j.x in ins then j == Join(j.x, -1, ColE, inner[0].table, inner[0].col)
        else outer != [] && j == Join(j.x, outer[0].table, outer[0].col, inner[0].table, inner[0].col))
  }

  ghost predicate IsInner(ps: seq<Pattern>, ins: set<Var>, s: Schema, body: seq<Simple>, b: Body) {
    var qs := PatternsOf(body);
    && b.tables == TablesFor(qs, s)
    && (forall j :: j in b.joins <==> IsStarJoin(qs, j) || IsCorrelation(ps, ins, qs, j))
    && b.filters == InnerFilters(body, s, TypesFrom(ps, s, map[]))
  }

  /** The algebraic form of a query; the order of joins is that of a Go map, so any. */
  ghost predicate IsAlgebraOf(q: Query, s: Schema, aq: Algebraic) {
    var body := SimplesOf(q.where);
    var ps, ins := PatternsOf(body), (set x | x in q.ins);
    var types := TypesFrom(ps, s, map[]);
    && aq.body.tables == TablesFor(ps, s)
    && (forall j :: j in aq.body.joins <==> IsStarJoin(ps, j))
    && aq.body.filters == ResolvedFilters(ps, types, ins, ExprsOf(body))
    && aq.raws == []
    && |aq.find| == |q.find|
    && (forall i :: 0 <= i < |q.find| ==> aq.find[i] == ResolvedFind(ps, types, ins, q.find[i]))
    && |aq.nots| == |NotsOf(q.where)|
    && (forall i :: 0 <= i < |aq.nots| ==> IsInner(ps, ins, s, NotsOf(q.where)[i], aq.nots[i]))
  }

  // ---------------------------------------------------------------------
  // Translation: fragments and parameters side by side
  // ---------------------------------------------------------------------

  /** The column a place is read through: the typed one where there is one. */
  function ReadCol(col: Column, t: Option<ValueType>): Column {
    if col == ColV && t.Some? && TypedColumnOf(t.value).Some? then ColumnOf(TypedColumnOf(t.value).value) else col
  }

  function Hole(alias: Alias, col: Column, bound: bool): seq<Atom> {
    if bound then [ACmp(Eq, OCol(alias, col), OParam)] else []
  }

  function TableAtoms(tb: TableBinding): seq<Atom> {
    Hole(tb.alias, ColA, tb.attrID != 0) + Hole(tb.alias, ColE, tb.eBound != VNil)
    + Hole(tb.alias, ReadCol(ColV, tb.valueType), tb.vBound != VNil) + Hole(tb.alias, ColTx, tb.txBound != VNil)
  }

  /** An attribute id as a parameter; ids are int64 in the original. */
  function IdValue(n: int): Value {
    if -TWO63 <= n < TWO63 then VInt(n) else VNil
  }

  function One(v: Value, bound: bool): seq<Value> {
    if bound then [v] else []
  }

  function TableParams(tb: TableBinding): seq<Value> {
    One(IdValue(tb.attrID), tb.attrID != 0) + One(tb.eBound, tb.eBound != VNil)
    + One(tb.vBound, tb.vBound != VNil) + One(tb.txBound, tb.txBound != VNil)
  }

  function TablesAtoms(tbs: seq<TableBinding>): seq<Atom> {
    if tbs == [] then [] else TablesAtoms(tbs[..|tbs| - 1]) + TableAtoms(tbs[|tbs| - 1])
  }

  function TablesParams(tbs: seq<TableBinding>): seq<Value> {
    if tbs == [] then [] else TablesParams(tbs[..|tbs| - 1]) + TableParams(tbs[|tbs| - 1])
  }

  /** The operand for a place, or NULL when there is no such table. */
  function PlaceOf(tbs: seq<TableBinding>, i: int, col: Column): Operand {
    if 0 <= i < |tbs| then OCol(tbs[i].alias, col) else OLit(SNull)
  }

  function ValueTypeOf(tbs: seq<TableBinding>, i: int): Option<ValueType> {
    if 0 <= i < |tbs| then tbs[i].valueType else None
  }

  function JoinAtom(tbs: seq<TableBinding>, j: Join): Atom {
    ACmp(Eq, PlaceOf(tbs, j.leftTable, ReadCol(j.leftCol, ValueTypeOf(tbs, j.leftTable))),
         PlaceOf(tbs, j.rightTable, ReadCol(j.rightCol, ValueTypeOf(tbs, j.rightTable))))
  }

  /** In a subquery, a left table index that the inner query also has is read there. */
  function InnerJoinAtom(outer: seq<TableBinding>, inner: seq<TableBinding>, j: Join): Atom {
    ACmp(Eq, PlaceOf(if j.leftTable < |inner| then inner else outer, j.leftTable, j.leftCol),
         PlaceOf(inner, j.rightTable, j.rightCol))
  }

  function JoinAtoms(tbs: seq<TableBinding>, js: seq<Join>): (r: seq<Atom>)
    ensures forall a :: a in r <==> exists j :: j in js && a == JoinAtom(tbs, j)
  {
    if js == [] then [] else JoinAtoms(tbs, js[..|js| - 1]) + [JoinAtom(tbs, js[|js| - 1])]
  }

  function InnerJoinAtoms(outer: seq<TableBinding>, inner: seq<TableBinding>, js: seq<Join>): (r: seq<Atom>)
    ensures forall a :: a in r <==> exists j :: j in js && a == InnerJoinAtom(outer, inner, j)
  {
    if js == [] then [] else InnerJoinAtoms(outer, inner, js[..|js| - 1]) + [InnerJoinAtom(outer, inner, js[|js| - 1])]
  }

  function ArgOperand(tbs: seq<TableBinding>, a: FilterArg): Operand {
    match a
    case FVar(_, i, col, t) => PlaceOf(tbs, i, ReadCol(col, t))
    case FConst(_, _) => OParam
  }

  function ArgOperands(tbs: seq<TableBinding>, args: seq<FilterArg>): (r: seq<Operand>)
    ensures |r| == |args|
    ensures forall i :: 0 <= i < |args| ==> r[i] == ArgOperand(tbs, args[i])
  {
    if args == [] then [] else [ArgOperand(tbs, args[0])] + ArgOperands(tbs, args[1..])
  }

  function ArgParams(args: seq<FilterArg>): seq<Value> {
    if args == [] then [] else (if args[0].FConst? then [args[0].c] else []) + ArgParams(args[1..])
  }

  /** A built-in comparison of two operands, or a call. Built-ins with another number of
      operands, which the original chains, are not part of this model. */
  function FilterAtom(tbs: seq<TableBinding>, f: Filter): Atom {
    var os := ArgOperands(tbs, f.args);
    if Builtin(f.fn).Some? && |os| == 2 then ACmp(Builtin(f.fn).value, os[0], os[1]) else AUdf(f.fn, os)
  }

  function FiltersAtoms(tbs: seq<TableBinding>, fs: seq<Filter>): seq<Atom> {
    if fs == [] then [] else FiltersAtoms(tbs, fs[..|fs| - 1]) + [FilterAtom(tbs, fs[|fs| - 1])]
  }

  function FiltersParams(fs: seq<Filter>): seq<Value> {
    if fs == [] then [] else FiltersParams(fs[..|fs| - 1]) + ArgParams(fs[|fs| - 1].args)
  }

  function Lift(atoms: seq<Atom>): (r: seq<Frag>)
    ensures |r| == |atoms|
    ensures forall i :: 0 <= i < |atoms| ==> r[i] == FAtom(atoms[i])
  {
    if atoms == [] then [] else [FAtom(atoms[0])] + Lift(atoms[1..])
  }

  function BodyAtoms(b: Body, joins: seq<Atom>): seq<Atom> {
    TablesAtoms(b.tables) + joins + FiltersAtoms(b.tables, b.filters)
  }

  function BodyParams(b: Body): seq<Value> {
    TablesParams(b.tables) + FiltersParams(b.filters)
  }

  function RawFrags(rs: seq<RawFilter>): seq<Frag> {
    if rs == [] then [] else RawFrags(rs[..|rs| - 1]) + [rs[|rs| - 1].frag]
  }

  function RawParams(rs: seq<RawFilter>): seq<Value> {
    if rs == [] then [] else RawParams(rs[..|rs| - 1]) + rs[|rs| - 1].params
  }

  function Froms(tbs: seq<TableBinding>): (r: seq<From>)
    ensures |r| == |tbs|
    ensures forall i :: 0 <= i < |tbs| ==> r[i] == From(tbs[i].table, tbs[i].alias)
  {
    if tbs == [] then [] else Froms(tbs[..|tbs| - 1]) + [From(tbs[|tbs| - 1].table, tbs[|tbs| - 1].alias)]
  }

  function NotFrag(outer: seq<TableBinding>, inner: Body): Frag {
    FNotExists(Froms(inner.tables), BodyAtoms(inner, InnerJoinAtoms(outer, inner.tables, inner.joins)))
  }

  function NotFrags(outer: seq<TableBinding>, nots: seq<Body>): seq<Frag> {
    if nots == [] then [] else NotFrags(outer, nots[..|nots| - 1]) + [NotFrag(outer, nots[|nots| - 1])]
  }

  function NotsParams(nots: seq<Body>): seq<Value> {
    if nots == [] then [] else NotsParams(nots[..|nots| - 1]) + BodyParams(nots[|nots| - 1])
  }

  /** The output columns of a :find element: a value column comes with its type. */
  function FindCols(tbs: seq<TableBinding>, f: FindMapping): seq<Operand> {
    [PlaceOf(tbs, f.table, ReadCol(f.col, f.valueType))] + if f.col == ColV then [PlaceOf(tbs, f.table, ColVType)]
      else []
  }

  function SelectCols(tbs: seq<TableBinding>, fs: seq<FindMapping>): seq<Operand> {
    if fs == [] then [] else SelectCols(tbs, fs[..|fs| - 1]) + FindCols(tbs, fs[|fs| - 1])
  }

  function WhereFrags(aq: Algebraic): seq<Frag> {
    Lift(BodyAtoms(aq.body, JoinAtoms(aq.body.tables, aq.body.joins))) + RawFrags(aq.raws)
  }

  function WhereParams(aq: Algebraic): seq<Value> {
    BodyParams(aq.body) + RawParams(aq.raws)
  }

  /** translateCore, for queries without aggregates and ORDER BY. */
  function Translated(aq: Algebraic): SqlQuery {
    SqlQuery(SelectCols(aq.body.tables, aq.find), Froms(aq.body.tables),
             WhereFrags(aq) + NotFrags(aq.body.tables, aq.nots), WhereParams(aq) + NotsParams(aq.nots))
  }

  // ---------------------------------------------------------------------
  // Reading results (executeQuery)
  // ---------------------------------------------------------------------

  function TypeOfCode(n: int): ValueType {
    if n == 1 then TInt else if n == 2 then TString else if n == 3 then TFloat else if n == 4 then TBool
    else if n == 5 then TRef else if n == 6 then TBytes else TInst
  }

  /** One :find value from its one or two columns. */
  function ReadFind(f: FindMapping, cols: seq<SqlVal>): DVal
    requires |cols| == if f.col == ColV then 2 else 1
  {
    if f.col == ColV && !(f.valueType.Some? && TypedColumnOf(f.valueType.value).Some?) && cols[0].SBlob?
      && cols[1].SInt? then
      Encoded(TypeOfCode(cols[1].n), cols[0].b)
    else Plain(cols[0])
  }

  /** A result row read column by column against the :find elements. */
  ghost predicate Reads(fs: seq<FindMapping>, row: seq<SqlVal>, out: seq<DVal>) {
    if fs == [] then row == [] && out == []
    else
      var f := fs[|fs| - 1];
      var w := if f.col == ColV then 2 else 1;
      |row| >= w && out != [] && Reads(fs[..|fs| - 1], row[..|row| - w], out[..|out| - 1])
      && out[|out| - 1] == ReadFind(f, row[|row| - w..])
  }

  /** The answers a compiled query gives to its caller. */
  ghost predicate QueryReturns(aq: Algebraic, db: Db, out: seq<DVal>) {
    exists row :: Returns(Translated(aq), db, row) && Reads(aq.find, row, out)
  }
}
