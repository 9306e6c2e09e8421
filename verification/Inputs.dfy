/** :in variables. bindInputArgs (query_api.go:201-308) writes an argument into the
    first table whose pattern has the variable, or into the first filter argument that
    refers to it; here that is shown to be substitution at every occurrence. */
module Inputs {
  import opened Prelude
  import opened Values
  import opened Store
  import opened Sql
  import opened Datalog
  import opened Algebra
  import opened Places
  import opened Placeholders
  import opened Compiler
  import opened Negation
  import opened Correctness

  // ---------------------------------------------------------------------
  // What bindInputArgs does
  // ---------------------------------------------------------------------

  datatype InputError = TooFewArgs | BadInput | InputNotFound

  predicate HasInput(p: Pattern, x: Var) {
    p.v == EVar(x) || p.e == EVar(x) || p.tx == EVar(x)
  }

  /** A value for a column without typed column is encoded; for an unknown type that fails. */
  function ColumnInput(v: Value, t: Option<ValueType>): Result<Value, InputError> {
    match t
    case None => Err(BadInput)
    case Some(t) =>
      if TypedColumnOf(t).Some? then Ok(v)
      else match EncodeValue(v, t)
        case Ok(b) => Ok(VBytes(b))
        case Err(_) => Err(BadInput)
  }

  /** In the table itself the value position comes before e and tx; a is not considered. */
  function BindTable(tb: TableBinding, x: Var, v: Value): Result<TableBinding, InputError>
    requires HasInput(tb.pattern, x)
  {
    if tb.pattern.v == EVar(x) then
      match ColumnInput(v, tb.valueType)
      case Ok(w) => Ok(tb.(vBound := w))
      case Err(err) => Err(err)
    else if tb.pattern.e == EVar(x) then Ok(tb.(eBound := v))
    else Ok(tb.(txBound := v))
  }

  predicate IsInput(a: FilterArg, x: Var) {
    a.FVar? && a.x == x && a.table == -1
  }

  function FirstType(args: seq<FilterArg>): Option<ValueType> {
    if args == [] then None else if args[0].valueType.Some? then args[0].valueType else FirstType(args[1..])
  }

  /** The constant that replaces an input in a filter. */
  function FilterInput(a: FilterArg, args: seq<FilterArg>, v: Value): Result<FilterArg, InputError> {
    var t := if a.valueType.Some? then a.valueType else FirstType(args);
    if t.None? || TypedColumnOf(t.value).Some? then Ok(FConst(v, a.valueType))
    else match EncodeValue(v, t.value)
      case Ok(b) => Ok(FConst(VBytes(b), a.valueType))
      case Err(_) => Err(BadInput)
  }

  /** The first table with the variable, at or after i. */
  function TableWithInput(tbs: seq<TableBinding>, x: Var, i: nat): (r: Option<nat>)
    requires i <= |tbs|
    ensures r.Some? ==> i <= r.value < |tbs| && HasInput(tbs[r.value].pattern, x)
                        && forall k :: i <= k < r.value ==> !HasInput(tbs[k].pattern, x)
    ensures r.None? ==> forall k :: i <= k < |tbs| ==> !HasInput(tbs[k].pattern, x)
    decreases |tbs| - i
  {
    if i == |tbs| then None else if HasInput(tbs[i].pattern, x) then Some(i) else TableWithInput(tbs, x, i + 1)
  }

  function ArgWithInput(args: seq<FilterArg>, x: Var, j: nat): (r: Option<nat>)
    requires j <= |args|
    ensures r.Some? ==> j <= r.value < |args| && IsInput(args[r.value], x)
                        && forall k :: j <= k < r.value ==> !IsInput(args[k], x)
    ensures r.None? ==> forall k :: j <= k < |args| ==> !IsInput(args[k], x)
    decreases |args| - j
  {
    if j == |args| then None else if IsInput(args[j], x) then Some(j) else ArgWithInput(args, x, j + 1)
  }

  function FilterWithInput(fs: seq<Filter>, x: Var, i: nat): (r: Option<nat>)
    requires i <= |fs|
    ensures r.Some? ==> i <= r.value < |fs| && ArgWithInput(fs[r.value].args, x, 0).Some?
                        && forall k :: i <= k < r.value ==> ArgWithInput(fs[k].args, x, 0).None?
    ensures r.None? ==> forall k :: i <= k < |fs| ==> ArgWithInput(fs[k].args, x, 0).None?
    decreases |fs| - i
  {
    if i == |fs| then None else if ArgWithInput(fs[i].args, x, 0).Some? then Some(i) else FilterWithInput(fs, x, i + 1)
  }

  /** One input: into a table, or else into a filter, or else an error. */
  function BindInput(b: Body, x: Var, v: Value): Result<Body, InputError> {
    var t := TableWithInput(b.tables, x, 0);
    if t.Some? then
      match BindTable(b.tables[t.value], x, v)
      case Ok(tb) => Ok(b.(tables := b.tables[t.value := tb]))
      case Err(err) => Err(err)
    else
      var f := FilterWithInput(b.filters, x, 0);
      if f.None? then Err(InputNotFound)
      else
        var args := b.filters[f.value].args;
        var j := ArgWithInput(args, x, 0).value;
        match FilterInput(args[j], args, v)
        case Ok(a) => Ok(b.(filters := b.filters[f.value := b.filters[f.value].(args := args[j := a])]))
        case Err(err) => Err(err)
  }

  function BindInputs(b: Body, xs: seq<Var>, vs: seq<Value>): Result<Body, InputError>
    requires |xs| <= |vs|
  {
    if xs == [] then Ok(b)
    else match BindInputs(b, xs[..|xs| - 1], vs)
      case Err(err) => Err(err)
      case Ok(b1) => BindInput(b1, xs[|xs| - 1], vs[|xs| - 1])
  }

  function BindAll(aq: Algebraic, xs: seq<Var>, vs: seq<Value>): Result<Algebraic, InputError> {
    if |vs| < |xs| then Err(TooFewArgs)
    else match BindInputs(aq.body, xs, vs)
      case Err(err) => Err(err)
      case Ok(b) => Ok(aq.(body := b))
  }

  // ---------------------------------------------------------------------
  // Substitution
  // ---------------------------------------------------------------------

  type Given = map<Var, Value>

  function SubstElem(el: Elem, g: Given): Elem {
    if el.EVar? && el.x in g then EConst(g[el.x]) else el
  }

  function SubstPattern(p: Pattern, g: Given): Pattern {
    Pattern(SubstElem(p.e, g), SubstElem(p.a, g), SubstElem(p.v, g), SubstElem(p.tx, g))
  }

  function SubstElems(els: seq<Elem>, g: Given): (r: seq<Elem>)
    ensures |r| == |els| && forall i :: 0 <= i < |els| ==> r[i] == SubstElem(els[i], g)
  {
    if els == [] then [] else [SubstElem(els[0], g)] + SubstElems(els[1..], g)
  }

  function SubstExpr(x: Expr, g: Given): Expr {
    Expr(x.fn, SubstElems(x.args, g))
  }

  function SubstSimple(c: Simple, g: Given): Simple {
    match c
    case SPattern(p) => SPattern(SubstPattern(p, g))
    case SExpr(x) => SExpr(SubstExpr(x, g))
  }

  function SubstWhere(where: seq<Clause>, g: Given): (r: seq<Clause>)
    ensures |r| == |where|
  {
    if where == [] then []
    else SubstWhere(where[..|where| - 1], g)
         + [if where[|where| - 1].CSimple? then CSimple(SubstSimple(where[|where| - 1].s, g)) else where[|where| - 1]]
  }

  /** The query with every occurrence of its inputs, outside negations, replaced. */
  function SubstQuery(q: Query, g: Given): Query {
    Query(q.find, SubstWhere(q.where, g), [])
  }

  function SubstPatterns(ps: seq<Pattern>, g: Given): (r: seq<Pattern>)
    ensures |r| == |ps| && forall i :: 0 <= i < |ps| ==> r[i] == SubstPattern(ps[i], g)
  {
    if ps == [] then [] else SubstPatterns(ps[..|ps| - 1], g) + [SubstPattern(ps[|ps| - 1], g)]
  }

  function SubstExprs(xs: seq<Expr>, g: Given): (r: seq<Expr>)
    ensures |r| == |xs| && forall i :: 0 <= i < |xs| ==> r[i] == SubstExpr(xs[i], g)
  {
    if xs == [] then [] else SubstExprs(xs[..|xs| - 1], g) + [SubstExpr(xs[|xs| - 1], g)]
  }

  function SubstBody(body: seq<Simple>, g: Given): (r: seq<Simple>)
    ensures |r| == |body|
  {
    if body == [] then [] else SubstBody(body[..|body| - 1], g) + [SubstSimple(body[|body| - 1], g)]
  }

  lemma {:induction false} SubstSnoc(body: seq<Simple>, c: Simple, ps: seq<Pattern>, p: Pattern, xs: seq<Expr>,
                                     x: Expr, g: Given)
    ensures SubstBody(body + [c], g) == SubstBody(body, g) + [SubstSimple(c, g)]
    ensures SubstPatterns(ps + [p], g) == SubstPatterns(ps, g) + [SubstPattern(p, g)]
    ensures SubstExprs(xs + [x], g) == SubstExprs(xs, g) + [SubstExpr(x, g)]
  {
    assert (body + [c])[..|body|] == body && (ps + [p])[..|ps|] == ps && (xs + [x])[..|xs|] == xs;
  }

  lemma {:induction false} SubstSimples(where: seq<Clause>, g: Given)
    ensures SimplesOf(SubstWhere(where, g)) == SubstBody(SimplesOf(where), g)
    ensures NotsOf(SubstWhere(where, g)) == NotsOf(where)
  {
    if where != [] {
      var pre, c := where[..|where| - 1], where[|where| - 1];
      var c' := if c.CSimple? then CSimple(SubstSimple(c.s, g)) else c;
      assert SubstWhere(where, g) == SubstWhere(pre, g) + [c'] && where == pre + [c];
      hide SimplesOf, NotsOf, SubstSimple, SubstWhere, SubstBody, SubstPatterns, SubstExprs;
      SubstSimples(pre, g);
      SimplesSnoc(pre, c);
      SimplesSnoc(SubstWhere(pre, g), c');
      if c.CSimple? {
        SubstSnoc(SimplesOf(pre), c.s, [], Pattern(EBlank, EBlank, EBlank, EBlank), [], Expr([], []), g);
      }
    }
  }

  lemma {:induction false} SubstParts(body: seq<Simple>, g: Given)
    ensures PatternsOf(SubstBody(body, g)) == SubstPatterns(PatternsOf(body), g)
    ensures ExprsOf(SubstBody(body, g)) == SubstExprs(ExprsOf(body), g)
  {
    if body != [] {
      var pre, c := body[..|body| - 1], body[|body| - 1];
      var p := if c.SPattern? then c.p else Pattern(EBlank, EBlank, EBlank, EBlank);
      var x := if c.SExpr? then c.x else Expr([], []);
      assert body == pre + [c];
      hide PatternsOf, ExprsOf, SubstPattern, SubstExpr, SubstBody, SubstPatterns, SubstExprs;
      SubstParts(pre, g);
      PartsSnoc(pre, c);
      PartsSnoc(SubstBody(pre, g), SubstSimple(c, g));
      SubstSnoc(pre, c, PatternsOf(pre), p, ExprsOf(pre), x, g);
    }
  }

  /** The parts of a substituted query. */
  lemma {:induction false} SubstQueryParts(q: Query, g: Given)
    ensures var body, body' := SimplesOf(q.where), SimplesOf(SubstQuery(q, g).where);
            && PatternsOf(body') == SubstPatterns(PatternsOf(body), g)
            && ExprsOf(body') == SubstExprs(ExprsOf(body), g)
            && NotsOf(SubstQuery(q, g).where) == NotsOf(q.where)
  {
    SubstSimples(q.where, g);
    SubstParts(SimplesOf(q.where), g);
  }

  // ---------------------------------------------------------------------
  // The algebra of a query some of whose inputs are bound
  // ---------------------------------------------------------------------

  function FirstPattern(ps: seq<Pattern>, x: Var, i: nat): (r: Option<nat>)
    requires i <= |ps|
    ensures r.Some? ==> i <= r.value < |ps| && HasInput(ps[r.value], x)
                        && forall k :: i <= k < r.value ==> !HasInput(ps[k], x)
    ensures r.None? ==> forall k :: i <= k < |ps| ==> !HasInput(ps[k], x)
    decreases |ps| - i
  {
    if i == |ps| then None else if HasInput(ps[i], x) then Some(i) else FirstPattern(ps, x, i + 1)
  }

  /** The one place where an input is written into the tables. */
  function InputPlace(ps: seq<Pattern>, x: Var): Option<Loc> {
    match FirstPattern(ps, x, 0)
    case None => None
    case Some(i) => Some(Loc(i, if ps[i].v == EVar(x) then ColV else if ps[i].e == EVar(x) then ColE else ColTx))
  }

  function PlacedElem(ps: seq<Pattern>, i: int, col: Column, el: Elem, g: Given): Elem {
    if el.EVar? && el.x in g && InputPlace(ps, el.x) == Some(Loc(i, col)) then EConst(g[el.x]) else el
  }

  /** A pattern with the inputs placed in it, each at its one place. */
  function Placed(ps: seq<Pattern>, i: int, g: Given): Pattern
    requires 0 <= i < |ps|
  {
    Pattern(PlacedElem(ps, i, ColE, ps[i].e, g), ps[i].a, PlacedElem(ps, i, ColV, ps[i].v, g),
            PlacedElem(ps, i, ColTx, ps[i].tx, g))
  }

  function PlacedTable(ps: seq<Pattern>, i: int, s: Schema, g: Given): TableBinding
    requires 0 <= i < |ps|
  {
    TableFor(i, Placed(ps, i, g), s).(pattern := ps[i])
  }

  predicate SameArg(a: FilterArg, b: FilterArg) {
    if a.FVar? then a == b else b.FConst? && a.c == b.c && (a.valueType.Some? ==> a.valueType == b.valueType)
  }

  /** Filters that differ at most in the types recorded for their constants. */
  ghost predicate SameFilters(fs: seq<Filter>, hs: seq<Filter>) {
    |fs| == |hs| && forall i :: 0 <= i < |fs| ==> SameFilter(fs[i], hs[i])
  }

  ghost predicate SameFilter(f: Filter, h: Filter) {
    f.fn == h.fn && |f.args| == |h.args| && forall j :: 0 <= j < |f.args| ==> SameArg(f.args[j], h.args[j])
  }

  ghost predicate IsBound(ps: seq<Pattern>, xs: seq<Expr>, ins: set<Var>, s: Schema, g: Given, b: Body) {
    && |b.tables| == |ps|
    && (forall i :: 0 <= i < |ps| ==> b.tables[i] == PlacedTable(ps, i, s, g))
    && SameFilters(b.filters, ResolvedFilters(ps, TypesFrom(ps, s, map[]), ins - g.Keys, SubstExprs(xs, g)))
  }

  // ---------------------------------------------------------------------
  // How an input may be used
  // ---------------------------------------------------------------------

  ghost predicate UsedAt(xs: seq<Expr>, x: Var, i: int, j: int) {
    0 <= i < |xs| && 0 <= j < |xs[i].args| && xs[i].args[j] == EVar(x)
  }

  ghost predicate UsedIn(xs: seq<Expr>, x: Var) {
    exists i, j :: UsedAt(xs, x, i, j)
  }

  /** In patterns only: not as an attribute, not in expressions, and of a fitting type. */
  ghost predicate PatternInput(ps: seq<Pattern>, xs: seq<Expr>, s: Schema, x: Var, v: Value) {
    && x in VarsOf(ps) && !UsedIn(xs, x)
    && (forall i, col :: StandsAt(ps, x, i, col) ==> col != ColA && ConstFits(v, KindAt(ps[i], s, col)))
  }

  /** In one position of one expression and in no pattern. */
  ghost predicate ExprInput(ps: seq<Pattern>, xs: seq<Expr>, x: Var) {
    && x !in VarsOf(ps) && UsedIn(xs, x)
    && forall i, j, i', j' :: UsedAt(xs, x, i, j) && UsedAt(xs, x, i', j') ==> i == i' && j == j'
  }

  lemma {:induction false} PlaceOfInput(ps: seq<Pattern>, x: Var)
    ensures InputPlace(ps, x).Some? ==> var l := InputPlace(ps, x).value; StandsAt(ps, x, l.table, l.col)
    ensures forall i, col :: StandsAt(ps, x, i, col) && col != ColA ==> InputPlace(ps, x).Some?
  {
  }

  // ---------------------------------------------------------------------
  // One step
  // ---------------------------------------------------------------------

  lemma {:induction false} SameFirstTable(ps: seq<Pattern>, tbs: seq<TableBinding>, x: Var)
    requires |tbs| == |ps| && forall i :: 0 <= i < |ps| ==> tbs[i].pattern == ps[i]
    ensures TableWithInput(tbs, x, 0) == FirstPattern(ps, x, 0)
  {
    assert forall k :: 0 <= k < |ps| ==> (HasInput(tbs[k].pattern, x) <==> HasInput(ps[k], x));
  }

  lemma {:induction false} FittingColumnInput(v: Value, t: Option<ValueType>)
    requires t.Some? && ConstFits(v, KindOfType(t.value))
    ensures ColumnInput(v, t) == Ok(v)
  {
  }

  /** Writing a fitting input into its table places it there and nowhere else. */
  lemma {:induction false} TableStep(ps: seq<Pattern>, s: Schema, g: Given, x: Var, v: Value, i: int)
    requires InputPlace(ps, x).Some? && x !in g && 0 <= i < |ps|
    requires var l := InputPlace(ps, x).value; ConstFits(v, KindAt(ps[l.table], s, l.col))
    ensures var l := InputPlace(ps, x).value;
            if i == l.table then BindTable(PlacedTable(ps, i, s, g), x, v) == Ok(PlacedTable(ps, i, s, g[x := v]))
            else PlacedTable(ps, i, s, g[x := v]) == PlacedTable(ps, i, s, g)
  {
    var l := InputPlace(ps, x).value;
    PlacedStep(ps, g, x, v, i);
    hide Placed, InputPlace;
    if i == l.table {
      var tb := PlacedTable(ps, i, s, g);
      assert tb.valueType == PatType(ps[i], s) && tb.pattern == ps[i];
      PlaceColumn(ps, x);
      if l.col == ColV {
        FittingColumnInput(v, tb.valueType);
      }
    }
  }

  lemma {:induction false} PlaceColumn(ps: seq<Pattern>, x: Var)
    requires InputPlace(ps, x).Some?
    ensures var l := InputPlace(ps, x).value;
            && 0 <= l.table < |ps| && HasInput(ps[l.table], x)
            && l.col == if ps[l.table].v == EVar(x) then ColV else if ps[l.table].e == EVar(x) then ColE else ColTx
  {
  }

  lemma {:induction false} PlacedStep(ps: seq<Pattern>, g: Given, x: Var, v: Value, i: int)
    requires InputPlace(ps, x).Some? && x !in g && 0 <= i < |ps|
    ensures var l := InputPlace(ps, x).value; var p, p' := Placed(ps, i, g), Placed(ps, i, g[x := v]);
            && p.a == ps[i].a == p'.a
            && p'.e == (if l == Loc(i, ColE) then EConst(v) else p.e)
            && p'.v == (if l == Loc(i, ColV) then EConst(v) else p.v)
            && p'.tx == (if l == Loc(i, ColTx) then EConst(v) else p.tx)
  {
    PlaceOfInput(ps, x);
    hide InputPlace;
  }

  lemma {:induction false} UnplacedStep(ps: seq<Pattern>, g: Given, x: Var, v: Value, i: int)
    requires InputPlace(ps, x).None? && x !in g && 0 <= i < |ps|
    ensures Placed(ps, i, g[x := v]) == Placed(ps, i, g)
  {
    hide InputPlace;
  }

  // ---------------------------------------------------------------------
  // An input in a filter
  // ---------------------------------------------------------------------

  function ArgOf(ps: seq<Pattern>, types: map<Var, ValueType>, ins: set<Var>, el: Elem, g: Given): FilterArg {
    ResolvedArg(LocsFrom(ps, VarName(SubstElem(el, g))), types, ins, SubstElem(el, g))
  }

  /** A filter argument refers to an input exactly when the expression does. */
  lemma {:induction false} ArgIsInput(ps: seq<Pattern>, types: map<Var, ValueType>, ins: set<Var>, el: Elem, g: Given,
                                      x: Var)
    requires x in ins && x !in g
    ensures IsInput(ArgOf(ps, types, ins, el, g), x) <==> el == EVar(x)
  {
  }

  lemma {:induction false} ArgStep(ps: seq<Pattern>, types: map<Var, ValueType>, ins: set<Var>, el: Elem, g: Given,
                                   x: Var, v: Value)
    requires x in ins && x !in g && x !in types
    ensures ArgOf(ps, types, ins - {x}, el, g[x := v]) == if el == EVar(x) then FConst(v, None)
            else ArgOf(ps, types, ins, el, g)
    ensures el == EVar(x) ==> ArgOf(ps, types, ins, el, g) == FVar(x, -1, ColE, None)
  {
    hide LocsFrom;
  }

  ghost predicate SameButUntyped(args: seq<FilterArg>, args': seq<FilterArg>) {
    |args| == |args'|
    && forall k :: 0 <= k < |args|
         ==> args'[k] == args[k] || (args[k].FVar? && args[k].valueType.None? && args'[k].FConst?)
  }

  lemma {:induction false} InferredSame(args: seq<FilterArg>, args': seq<FilterArg>)
    requires SameButUntyped(args, args')
    ensures InferredType(args) == InferredType(args')
    decreases |args|
  {
    if args != [] {
      InferredSame(args[1..], args'[1..]);
    }
  }

  lemma {:induction false} InferredIsOfAVar(args: seq<FilterArg>)
    ensures InferredType(args).Some?
            ==> exists k :: 0 <= k < |args| && args[k].FVar? && args[k].valueType == InferredType(args)
  {
    if args != [] {
      InferredIsOfAVar(args[1..]);
      assert forall k :: 0 <= k < |args| - 1 ==> args[1..][k] == args[k + 1];
      if !(args[0].FVar? && args[0].valueType.Some?) && InferredType(args).Some? {
        var k :| 0 <= k < |args[1..]| && args[1..][k].FVar? && args[1..][k].valueType == InferredType(args);
        assert args[k + 1] == args[1..][k];
      }
    }
  }

  lemma {:induction false} FirstTypeIsOfAnArg(args: seq<FilterArg>)
    ensures FirstType(args).Some? ==> exists k :: 0 <= k < |args| && args[k].valueType == FirstType(args)
  {
    if args != [] && args[0].valueType.None? && FirstType(args).Some? {
      FirstTypeIsOfAnArg(args[1..]);
      var k :| 0 <= k < |args[1..]| && args[1..][k].valueType == FirstType(args);
      assert args[k + 1] == args[1..][k];
    }
  }

  /** Where bytes are compared, the argument is bytes. */
  ghost predicate BytesFit(x: Expr, types: map<Var, ValueType>, v: Value) {
    forall el :: el in x.args && el.EVar? && TypeOf(types, el.x) == Some(TBytes) ==> v.VBytes?
  }

  lemma {:induction false} TypedIsOfAVar(args: seq<FilterArg>, k: int, t: ValueType)
    requires forall n :: 0 <= n < |args| && args[n].FConst? ==> args[n].valueType.None?
    requires 0 <= k < |args| && Typed(args, InferredType(args))[k].valueType == Some(t)
    ensures exists n :: 0 <= n < |args| && args[n].FVar? && args[n].valueType == Some(t)
  {
    InferredIsOfAVar(args);
  }

  lemma {:induction false} TypeOfArg(ps: seq<Pattern>, types: map<Var, ValueType>, ins: set<Var>, el: Elem, g: Given)
    ensures var a := ArgOf(ps, types, ins, el, g);
            if a.FVar? then el.EVar? && a.valueType == TypeOf(types, el.x) else a.valueType.None?
  {
    hide LocsFrom;
  }

  /** Any type found in a filter is that of one of the expression's variables. */
  lemma {:induction false} TypesInFilter(ps: seq<Pattern>, types: map<Var, ValueType>, ins: set<Var>, x: Expr,
                                         g: Given, f: Filter, t: ValueType)
    requires SameFilter(f, ResolvedFilter(ps, types, ins, SubstExpr(x, g)))
    requires FirstType(f.args) == Some(t)
    ensures exists el :: el in x.args && el.EVar? && TypeOf(types, el.x) == Some(t)
  {
    hide LocsFrom, FirstType, InferredType, SubstElem, ResolvedArg, TypeOf;
    var args := ResolvedArgs(ps, types, ins, SubstElems(x.args, g));
    FirstTypeIsOfAnArg(f.args);
    var k :| 0 <= k < |f.args| && f.args[k].valueType == Some(t);
    assert SameArg(f.args[k], Typed(args, InferredType(args))[k]);
    forall n | 0 <= n < |args|
      ensures if args[n].FVar? then x.args[n].EVar? && args[n].valueType == TypeOf(types, x.args[n].x)
              else args[n].valueType.None?
    {
      assert args[n] == ArgOf(ps, types, ins, x.args[n], g);
      TypeOfArg(ps, types, ins, x.args[n], g);
    }
    hide Typed, ResolvedArgs, SubstElems, SameArg;
    TypedIsOfAVar(args, k, t);
    var n :| 0 <= n < |args| && args[n].FVar? && args[n].valueType == Some(t);
    assert x.args[n] in x.args;
  }

  lemma {:induction false} FittingFilterInput(f: Filter, j: int, v: Value)
    requires 0 <= j < |f.args| && f.args[j].valueType.None? && (FirstType(f.args) == Some(TBytes) ==> v.VBytes?)
    ensures FilterInput(f.args[j], f.args, v) == Ok(FConst(v, None))
  {
  }

  ghost predicate StepAt(a: FilterArg, a': FilterArg, x: Var, v: Value, here: bool) {
    (IsInput(a, x) <==> here) && a' == (if here then FConst(v, None) else a) && (here ==> a == FVar(x, -1, ColE, None))
  }

  /** The arguments before and after an input is written into the one at j. */
  ghost predicate ArgsStep(args: seq<FilterArg>, args': seq<FilterArg>, x: Var, v: Value, j: int) {
    |args| == |args'| && 0 <= j < |args| && forall k :: 0 <= k < |args| ==> StepAt(args[k], args'[k], x, v, k == j)
  }

  lemma {:induction false} ArgStepAt(ps: seq<Pattern>, types: map<Var, ValueType>, ins: set<Var>, e: Expr, g: Given,
                                     x: Var, v: Value, k: int)
    requires x in ins && x !in g && x !in types && 0 <= k < |e.args|
    ensures StepAt(ResolvedArgs(ps, types, ins, SubstElems(e.args, g))[k],
                   ResolvedArgs(ps, types, ins - {x}, SubstElems(e.args, g[x := v]))[k], x, v, e.args[k] == EVar(x))
  {
    assert ResolvedArgs(ps, types, ins, SubstElems(e.args, g))[k] == ArgOf(ps, types, ins, e.args[k], g);
    assert ResolvedArgs(ps, types, ins - {x}, SubstElems(e.args, g[x := v]))[k]
      == ArgOf(ps, types, ins - {x}, e.args[k], g[x := v]);
    ArgIsInput(ps, types, ins, e.args[k], g, x);
    ArgStep(ps, types, ins, e.args[k], g, x, v);
    hide ArgOf, IsInput, ResolvedArgs, SubstElems, ResolvedArg, SubstElem, LocsFrom;
  }

  lemma {:induction false} ArgsAreStep(ps: seq<Pattern>, types: map<Var, ValueType>, ins: set<Var>, e: Expr, g: Given,
                                       x: Var, v: Value, j: int)
    requires x in ins && x !in g && x !in types
    requires 0 <= j < |e.args| && e.args[j] == EVar(x)
             && forall k :: 0 <= k < |e.args| && e.args[k] == EVar(x) ==> k == j
    ensures ArgsStep(ResolvedArgs(ps, types, ins, SubstElems(e.args, g)),
                     ResolvedArgs(ps, types, ins - {x}, SubstElems(e.args, g[x := v])), x, v, j)
  {
    hide ResolvedArg, SubstElem, LocsFrom, IsInput, StepAt, ResolvedArgs, SubstElems;
    forall k | 0 <= k < |e.args|
      ensures StepAt(ResolvedArgs(ps, types, ins, SubstElems(e.args, g))[k],
                     ResolvedArgs(ps, types, ins - {x}, SubstElems(e.args, g[x := v]))[k], x, v, k == j)
    {
      ArgStepAt(ps, types, ins, e, g, x, v, k);
    }
  }

  lemma {:induction false} StepSame(args: seq<FilterArg>, args': seq<FilterArg>, x: Var, v: Value, j: int)
    requires ArgsStep(args, args', x, v, j)
    ensures InferredType(args) == InferredType(args')
  {
    assert forall k :: 0 <= k < |args| ==> StepAt(args[k], args'[k], x, v, k == j);
    InferredSame(args, args');
  }

  lemma {:induction false} SameArgStep(f: FilterArg, a: FilterArg, a': FilterArg, t: Option<ValueType>, x: Var,
                                       v: Value, here: bool)
    requires SameArg(f, Retyped(a, t)) && StepAt(a, a', x, v, here)
    ensures IsInput(f, x) <==> here
    ensures SameArg(if here then FConst(v, None) else f, Retyped(a', t))
    ensures here ==> f == FVar(x, -1, ColE, None)
  {
  }

  lemma {:induction false} OnlyInput(args: seq<FilterArg>, x: Var, j: int)
    requires 0 <= j < |args| && forall k :: 0 <= k < |args| ==> (IsInput(args[k], x) <==> k == j)
    ensures ArgWithInput(args, x, 0) == Some(j)
  {
    hide IsInput;
    assert IsInput(args[j], x);
  }

  lemma {:induction false} SameArgs(fargs: seq<FilterArg>, args: seq<FilterArg>, args': seq<FilterArg>, x: Var,
                                    v: Value, j: int)
    requires |fargs| == |args| && ArgsStep(args, args', x, v, j)
    requires forall k :: 0 <= k < |args| ==> SameArg(fargs[k], Typed(args, InferredType(args))[k])
    ensures ArgWithInput(fargs, x, 0) == Some(j) && fargs[j] == FVar(x, -1, ColE, None)
    ensures forall k :: 0 <= k < |args|
              ==> SameArg(fargs[j := FConst(v, None)][k], Typed(args', InferredType(args'))[k])
  {
    StepSame(args, args', x, v, j);
    hide InferredType, StepAt, IsInput, ArgWithInput, SameArg, Typed;
    forall k | 0 <= k < |args|
      ensures IsInput(fargs[k], x) <==> k == j
      ensures SameArg(fargs[j := FConst(v, None)][k], Typed(args', InferredType(args'))[k])
      ensures k == j ==> fargs[k] == FVar(x, -1, ColE, None)
    {
      assert StepAt(args[k], args'[k], x, v, k == j);
      SameArgStep(fargs[k], args[k], args'[k], InferredType(args), x, v, k == j);
    }
    OnlyInput(fargs, x, j);
  }

  /** Writing an input into its one filter argument substitutes it there. */
  lemma {:induction false} FilterStep(ps: seq<Pattern>, types: map<Var, ValueType>, ins: set<Var>, e: Expr, g: Given,
                                      x: Var, v: Value, f: Filter, j: int)
    requires SameFilter(f, ResolvedFilter(ps, types, ins, SubstExpr(e, g)))
    requires x in ins && x !in g && x !in types && BytesFit(e, types, v)
    requires 0 <= j < |e.args| && e.args[j] == EVar(x)
             && forall k :: 0 <= k < |e.args| && e.args[k] == EVar(x) ==> k == j
    ensures ArgWithInput(f.args, x, 0) == Some(j) && FilterInput(f.args[j], f.args, v) == Ok(FConst(v, None))
    ensures SameFilter(f.(args := f.args[j := FConst(v, None)]),
                       ResolvedFilter(ps, types, ins - {x}, SubstExpr(e, g[x := v])))
  {
    hide ResolvedArg, ResolvedArgs, SubstElem, SubstElems, LocsFrom, FilterInput, BytesFit, Typed, InferredType,
      SameArg, ArgsStep, ArgWithInput, FirstType, TypeOf;
    ArgsAreStep(ps, types, ins, e, g, x, v, j);
    SameArgs(f.args, ResolvedArgs(ps, types, ins, SubstElems(e.args, g)),
             ResolvedArgs(ps, types, ins - {x}, SubstElems(e.args, g[x := v])), x, v, j);
    if FirstType(f.args).Some? {
      TypesInFilter(ps, types, ins, e, g, f, FirstType(f.args).value);
    }
    FitsBytes(e, types, v, f);
    FittingFilterInput(f, j, v);
  }

  lemma {:induction false} FitsBytes(e: Expr, types: map<Var, ValueType>, v: Value, f: Filter)
    requires BytesFit(e, types, v)
    requires FirstType(f.args).Some?
             ==> exists el :: el in e.args && el.EVar? && TypeOf(types, el.x) == FirstType(f.args)
    ensures FirstType(f.args) == Some(TBytes) ==> v.VBytes?
  {
  }

  lemma {:induction false} OtherArgs(ps: seq<Pattern>, types: map<Var, ValueType>, ins: set<Var>, e: Expr, g: Given,
                                     x: Var, v: Value)
    requires x in ins && x !in g && EVar(x) !in e.args
    ensures ResolvedArgs(ps, types, ins - {x}, SubstElems(e.args, g[x := v]))
            == ResolvedArgs(ps, types, ins, SubstElems(e.args, g))
    ensures forall k :: 0 <= k < |e.args| ==> !IsInput(ResolvedArgs(ps, types, ins, SubstElems(e.args, g))[k], x)
  {
    hide ResolvedArg, LocsFrom, SubstElem;
    var args, args' := ResolvedArgs(ps, types, ins, SubstElems(e.args, g)),
      ResolvedArgs(ps, types, ins - {x}, SubstElems(e.args, g[x := v]));
    forall k | 0 <= k < |e.args|
      ensures !IsInput(args[k], x) && args'[k] == args[k]
    {
      assert e.args[k] in e.args;
      assert args[k] == ArgOf(ps, types, ins, e.args[k], g)
        && args'[k] == ArgOf(ps, types, ins - {x}, e.args[k], g[x := v]);
      hide ArgOf, IsInput;
      OtherArg(ps, types, ins, e.args[k], g, x, v);
    }
    assert args' == args;
  }

  /** A filter without the input stays as it is. */
  lemma {:induction false} OtherFilter(ps: seq<Pattern>, types: map<Var, ValueType>, ins: set<Var>, e: Expr, g: Given,
                                       x: Var, v: Value, f: Filter)
    requires SameFilter(f, ResolvedFilter(ps, types, ins, SubstExpr(e, g)))
    requires x in ins && x !in g && EVar(x) !in e.args
    ensures ArgWithInput(f.args, x, 0).None?
    ensures ResolvedFilter(ps, types, ins - {x}, SubstExpr(e, g[x := v]))
            == ResolvedFilter(ps, types, ins, SubstExpr(e, g))
  {
    OtherArgs(ps, types, ins, e, g, x, v);
    hide ResolvedArg, LocsFrom, SubstElem, InferredType, ResolvedArgs;
    var args := ResolvedArgs(ps, types, ins, SubstElems(e.args, g));
    assert forall k :: 0 <= k < |args|
             ==> SameArg(f.args[k], Typed(args, InferredType(args))[k]) && !IsInput(args[k], x);
  }

  lemma {:induction false} OtherArg(ps: seq<Pattern>, types: map<Var, ValueType>, ins: set<Var>, el: Elem, g: Given,
                                    x: Var, v: Value)
    requires x in ins && x !in g && el != EVar(x)
    ensures !IsInput(ArgOf(ps, types, ins, el, g), x)
    ensures ArgOf(ps, types, ins - {x}, el, g[x := v]) == ArgOf(ps, types, ins, el, g)
  {
    hide LocsFrom;
  }

  // ---------------------------------------------------------------------
  // One input, then all of them
  // ---------------------------------------------------------------------

  /** In patterns of fitting type, or else in one position of one expression. */
  ghost predicate InputOK(ps: seq<Pattern>, xs: seq<Expr>, s: Schema, x: Var, v: Value) {
    || PatternInput(ps, xs, s, x, v)
    || (ExprInput(ps, xs, x) && forall e :: e in xs && EVar(x) in e.args ==> BytesFit(e, TypesFrom(ps, s, map[]), v))
  }

  lemma {:induction false} KeysStep(ins: set<Var>, g: Given, x: Var, v: Value)
    ensures ins - g[x := v].Keys == ins - g.Keys - {x}
  {
  }

  lemma {:induction false} BindTablesStep(ps: seq<Pattern>, s: Schema, g: Given, x: Var, v: Value,
                                          tbs: seq<TableBinding>)
    requires |tbs| == |ps| && forall i :: 0 <= i < |ps| ==> tbs[i] == PlacedTable(ps, i, s, g)
    requires InputPlace(ps, x).Some? && x !in g
    requires var l := InputPlace(ps, x).value; ConstFits(v, KindAt(ps[l.table], s, l.col))
    ensures var l := InputPlace(ps, x).value;
            && TableWithInput(tbs, x, 0) == Some(l.table)
               && BindTable(tbs[l.table], x, v) == Ok(PlacedTable(ps, l.table, s, g[x := v]))
            && forall i :: 0 <= i < |ps| && i != l.table ==> tbs[i] == PlacedTable(ps, i, s, g[x := v])
  {
    SameFirstTable(ps, tbs, x);
    hide Placed, TableFor, ConstFits, KindAt, BindTable, TableWithInput;
    forall i | 0 <= i < |ps| ensures
      var l := InputPlace(ps, x).value;
      if i == l.table then BindTable(tbs[i], x, v) == Ok(PlacedTable(ps, i, s, g[x := v]))
        else tbs[i] == PlacedTable(ps, i, s, g[x := v])
    {
      hide InputPlace;
      TableStep(ps, s, g, x, v, i);
    }
  }

  lemma {:induction false} OtherFilters(ps: seq<Pattern>, types: map<Var, ValueType>, ins: set<Var>, xs: seq<Expr>,
                                        g: Given, x: Var, v: Value, fs: seq<Filter>)
    requires SameFilters(fs, ResolvedFilters(ps, types, ins, SubstExprs(xs, g)))
    requires x in ins && x !in g && !UsedIn(xs, x)
    ensures SameFilters(fs, ResolvedFilters(ps, types, ins - {x}, SubstExprs(xs, g[x := v])))
  {
    hide ResolvedFilter, SubstExpr, ResolvedFilters, SubstExprs;
    var hs, hs' := ResolvedFilters(ps, types, ins, SubstExprs(xs, g)),
      ResolvedFilters(ps, types, ins - {x}, SubstExprs(xs, g[x := v]));
    forall i | 0 <= i < |xs| ensures hs'[i] == hs[i] {
      assert SameFilter(fs[i], hs[i]);
      hide SameFilter, ArgWithInput;
      assert forall j :: 0 <= j < |xs[i].args| && xs[i].args[j] == EVar(x) ==> UsedAt(xs, x, i, j);
      OtherFilter(ps, types, ins, xs[i], g, x, v, fs[i]);
    }
  }

  lemma {:induction false} PatternStep(ps: seq<Pattern>, xs: seq<Expr>, ins: set<Var>, s: Schema, g: Given, x: Var,
                                       v: Value, b: Body)
    requires IsBound(ps, xs, ins, s, g, b) && x in ins && x !in g && PatternInput(ps, xs, s, x, v)
    ensures BindInput(b, x, v).Ok? && IsBound(ps, xs, ins, s, g[x := v], BindInput(b, x, v).value)
            && BindInput(b, x, v).value.joins == b.joins
  {
    hide SameFilters, ResolvedFilters, SubstExprs, PlacedTable, BindTable, TableWithInput, TypesFrom, ConstFits, KindAt;
    VarsOfIff(ps, x);
    PlaceOfInput(ps, x);
    var i, col :| 0 <= i < |ps| && OccursAt(ps[i], x, col);
    assert StandsAt(ps, x, i, col);
    hide InputPlace, VarsOf;
    BindTablesStep(ps, s, g, x, v, b.tables);
    OtherFilters(ps, TypesFrom(ps, s, map[]), ins - g.Keys, xs, g, x, v, b.filters);
    KeysStep(ins, g, x, v);
  }

  lemma {:induction false} NoPlace(ps: seq<Pattern>, tbs: seq<TableBinding>, x: Var)
    requires x !in VarsOf(ps) && |tbs| == |ps| && forall i :: 0 <= i < |ps| ==> tbs[i].pattern == ps[i]
    ensures InputPlace(ps, x).None? && TableWithInput(tbs, x, 0).None?
  {
    SameFirstTable(ps, tbs, x);
    PlaceOfInput(ps, x);
    VarsOfIff(ps, x);
  }

  lemma {:induction false} UntypedInput(ps: seq<Pattern>, s: Schema, x: Var)
    requires x !in VarsOf(ps)
    ensures x !in TypesFrom(ps, s, map[])
  {
    TypesAreOfPlaces(ps, s, map[], x);
    VarsOfIff(ps, x);
    hide VarsOf, TypesFrom;
  }

  /** The filters after an input used in one position is written there. */
  lemma {:induction false} ExprFilters(ps: seq<Pattern>, types: map<Var, ValueType>, ins: set<Var>, xs: seq<Expr>,
                                       g: Given, x: Var, v: Value, fs: seq<Filter>, i: int, j: int)
    requires SameFilters(fs, ResolvedFilters(ps, types, ins, SubstExprs(xs, g)))
    requires x in ins && x !in g && x !in types
    requires UsedAt(xs, x, i, j) && (forall i', j' :: UsedAt(xs, x, i', j') ==> i' == i && j' == j)
             && BytesFit(xs[i], types, v)
    ensures FilterWithInput(fs, x, 0) == Some(i) && ArgWithInput(fs[i].args, x, 0) == Some(j)
    ensures FilterInput(fs[i].args[j], fs[i].args, v) == Ok(FConst(v, None))
    ensures SameFilters(fs[i := fs[i].(args := fs[i].args[j := FConst(v, None)])],
                        ResolvedFilters(ps, types, ins - {x}, SubstExprs(xs, g[x := v])))
  {
    hide ResolvedFilter, SubstExpr, ResolvedFilters, SubstExprs, ArgWithInput, FilterInput, BytesFit;
    var hs, hs' := ResolvedFilters(ps, types, ins, SubstExprs(xs, g)),
      ResolvedFilters(ps, types, ins - {x}, SubstExprs(xs, g[x := v]));
    forall k | 0 <= k < |xs|
      ensures k != i ==> ArgWithInput(fs[k].args, x, 0).None? && SameFilter(fs[k], hs'[k])
      ensures k == i ==> ArgWithInput(fs[k].args, x, 0) == Some(j)
                         && FilterInput(fs[k].args[j], fs[k].args, v) == Ok(FConst(v, None))
                         && SameFilter(fs[k].(args := fs[k].args[j := FConst(v, None)]), hs'[k])
    {
      assert SameFilter(fs[k], hs[k]);
      hide SameFilter;
      assert forall n :: 0 <= n < |xs[k].args| && xs[k].args[n] == EVar(x) ==> UsedAt(xs, x, k, n);
      if k == i {
        FilterStep(ps, types, ins, xs[k], g, x, v, fs[k], j);
      } else {
        OtherFilter(ps, types, ins, xs[k], g, x, v, fs[k]);
      }
    }
  }

  lemma {:induction false} BindsInFilter(b: Body, x: Var, v: Value, i: int, j: int)
    requires TableWithInput(b.tables, x, 0).None? && 0 <= i < |b.filters| && 0 <= j < |b.filters[i].args|
    requires FilterWithInput(b.filters, x, 0) == Some(i) && ArgWithInput(b.filters[i].args, x, 0) == Some(j)
    requires FilterInput(b.filters[i].args[j], b.filters[i].args, v) == Ok(FConst(v, None))
    ensures BindInput(b, x, v)
            == Ok(b.(filters := b.filters[i := b.filters[i].(args := b.filters[i].args[j := FConst(v, None)])]))
  {
    hide TableWithInput, FilterWithInput, ArgWithInput, FilterInput;
  }

  lemma {:induction false} ExprStep(ps: seq<Pattern>, xs: seq<Expr>, ins: set<Var>, s: Schema, g: Given, x: Var,
                                    v: Value, b: Body)
    requires IsBound(ps, xs, ins, s, g, b) && x in ins && x !in g
    requires ExprInput(ps, xs, x)
             && forall e :: e in xs && EVar(x) in e.args ==> BytesFit(e, TypesFrom(ps, s, map[]), v)
    ensures BindInput(b, x, v).Ok? && IsBound(ps, xs, ins, s, g[x := v], BindInput(b, x, v).value)
            && BindInput(b, x, v).value.joins == b.joins
  {
    hide SameFilters, ResolvedFilters, SubstExprs, TypesFrom, VarsOf, BytesFit, ArgWithInput, FilterInput,
      FilterWithInput, TableWithInput, PlacedTable, BindInput;
    var i, j :| UsedAt(xs, x, i, j);
    assert xs[i] in xs && xs[i].args[j] in xs[i].args;
    UntypedInput(ps, s, x);
    ExprFilters(ps, TypesFrom(ps, s, map[]), ins - g.Keys, xs, g, x, v, b.filters, i, j);
    KeysStep(ins, g, x, v);
    UnplacedTables(ps, s, g, x, v, b.tables);
    BindsInFilter(b, x, v, i, j);
  }

  lemma {:induction false} UnplacedTables(ps: seq<Pattern>, s: Schema, g: Given, x: Var, v: Value,
                                          tbs: seq<TableBinding>)
    requires x !in VarsOf(ps) && x !in g
    requires |tbs| == |ps| && forall i :: 0 <= i < |ps| ==> tbs[i] == PlacedTable(ps, i, s, g)
    ensures TableWithInput(tbs, x, 0).None? && forall i :: 0 <= i < |ps| ==> tbs[i] == PlacedTable(ps, i, s, g[x := v])
  {
    hide TableFor, Placed, InputPlace, VarsOf, TableWithInput;
    NoPlace(ps, tbs, x);
    forall k | 0 <= k < |ps| ensures PlacedTable(ps, k, s, g[x := v]) == PlacedTable(ps, k, s, g) {
      UnplacedStep(ps, g, x, v, k);
    }
  }

  /** The values given for the first inputs. */
  function GivenOf(xs: seq<Var>, vs: seq<Value>): Given
    requires |xs| <= |vs|
  {
    if xs == [] then map[] else GivenOf(xs[..|xs| - 1], vs)[xs[|xs| - 1] := vs[|xs| - 1]]
  }

  lemma {:induction false} GivenKeys(xs: seq<Var>, vs: seq<Value>)
    requires |xs| <= |vs|
    ensures forall x :: x in GivenOf(xs, vs) <==> x in xs
  {
    if xs != [] {
      var pre := xs[..|xs| - 1];
      GivenKeys(pre, vs);
      assert xs == pre + [xs[|xs| - 1]];
    }
  }

  ghost predicate Distinct(xs: seq<Var>) {
    forall i, j :: 0 <= i < j < |xs| ==> xs[i] != xs[j]
  }

  lemma {:induction false} NothingPlaced(ps: seq<Pattern>, i: int, s: Schema)
    requires 0 <= i < |ps|
    ensures PlacedTable(ps, i, s, map[]) == TableFor(i, ps[i], s)
  {
    hide InputPlace;
    assert Placed(ps, i, map[]) == ps[i];
  }

  lemma {:induction false} NothingSubstituted(xs: seq<Expr>)
    ensures SubstExprs(xs, map[]) == xs
  {
    forall i | 0 <= i < |xs| ensures SubstExpr(xs[i], map[]) == xs[i] {
      assert SubstElems(xs[i].args, map[]) == xs[i].args;
    }
  }

  lemma {:induction false} NothingBound(ps: seq<Pattern>, xs: seq<Expr>, ins: set<Var>, s: Schema, b: Body)
    requires b.tables == TablesFor(ps, s) && b.filters == ResolvedFilters(ps, TypesFrom(ps, s, map[]), ins, xs)
    ensures IsBound(ps, xs, ins, s, map[], b)
  {
    hide ResolvedFilter, ResolvedFilters, TypesFrom, PlacedTable, TableFor;
    var none: Given := map[];
    assert ins - none.Keys == ins;
    NothingSubstituted(xs);
    forall i | 0 <= i < |ps| ensures b.tables[i] == PlacedTable(ps, i, s, none) {
      NothingPlaced(ps, i, s);
    }
  }

  /** Every input of a query is written where it belongs, and no error is reported. */
  lemma {:induction false} BindInputsBinds(ps: seq<Pattern>, xs: seq<Expr>, ins: set<Var>, s: Schema, b: Body,
                                           xs': seq<Var>, vs: seq<Value>)
    requires IsBound(ps, xs, ins, s, map[], b) && |xs'| <= |vs| && Distinct(xs')
    requires forall i :: 0 <= i < |xs'| ==> xs'[i] in ins && InputOK(ps, xs, s, xs'[i], vs[i])
    ensures BindInputs(b, xs', vs).Ok? && IsBound(ps, xs, ins, s, GivenOf(xs', vs), BindInputs(b, xs', vs).value)
    ensures BindInputs(b, xs', vs).value.joins == b.joins
    decreases |xs'|
  {
    hide IsBound, PatternInput, ExprInput, BytesFit;
    if xs' != [] {
      var n := |xs'| - 1;
      BindInputsBinds(ps, xs, ins, s, b, xs'[..n], vs);
      GivenKeys(xs'[..n], vs);
      hide BindInput;
      var b1 := BindInputs(b, xs'[..n], vs).value;
      if PatternInput(ps, xs, s, xs'[n], vs[n]) {
        PatternStep(ps, xs, ins, s, GivenOf(xs'[..n], vs), xs'[n], vs[n], b1);
      } else {
        ExprStep(ps, xs, ins, s, GivenOf(xs'[..n], vs), xs'[n], vs[n], b1);
      }
    }
  }
}
