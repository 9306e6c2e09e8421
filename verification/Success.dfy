/** Which queries compile (query_api.go:156-198), said of the query, its inputs and the
    schema alone: the conditions under which binding, translation and encodeParams go
    through, whatever the order of joins. */
module Success {
  import opened Prelude
  import opened Values
  import opened Store
  import opened Sql
  import opened Datalog
  import opened Algebra
  import opened Places
  import Compiler
  import opened Inputs
  import opened Markers
  import opened AsOf
  import opened QueryApi
  import Algebrize
  import Translate

  // ---------------------------------------------------------------------
  // The conditions
  // ---------------------------------------------------------------------

  /** A value for a value position: the type must be known, and bytes take bytes only. */
  predicate FitsColumn(t: Option<ValueType>, v: Value) {
    t.Some? && (t == Some(TBytes) ==> v.VBytes?)
  }

  /** The type that the variables of an expression lend to its constants. */
  function LentType(q: Query, s: Schema, x: Expr): Option<ValueType> {
    var ps := PatternsOf(SimplesOf(q.where));
    InferredType(ResolvedArgs(ps, TypesFrom(ps, s, map[]), (set y | y in q.ins), x.args))
  }

  /** An input goes into the first pattern with it, or else into its first use. */
  ghost predicate Placeable(q: Query, s: Schema, x: Var, v: Value) {
    var ps, xs := PatternsOf(SimplesOf(q.where)), ExprsOf(SimplesOf(q.where));
    match FirstPattern(ps, x, 0)
    case Some(i) => ps[i].v == EVar(x) ==> FitsColumn(PatType(ps[i], s), v)
    case None =>
      && UsedIn(xs, x)
      && forall i, j :: FirstUse(xs, x, i, j) && LentType(q, s, xs[i]) == Some(TBytes) ==> v.VBytes?
  }

  ghost predicate AllPlaceable(q: Query, s: Schema, vs: seq<Value>) {
    |q.ins| <= |vs| && forall i :: 0 <= i < |q.ins| ==> Placeable(q, s, q.ins[i], vs[i])
  }

  predicate ConstEncodes(p: Pattern, s: Schema) {
    Bound(p.v) && PatType(p, s) == Some(TBytes) ==> p.v.c.VBytes?
  }

  predicate ArgIsBytes(el: Elem) {
    match el
    case EVar(_) => true
    case EConst(c) => c.VBytes?
    case EBlank => false
  }

  predicate ExprEncodes(q: Query, s: Schema, x: Expr) {
    LentType(q, s, x) == Some(TBytes) ==> forall el :: el in x.args ==> ArgIsBytes(el)
  }

  /** Bytes are compared with bytes, outside negations. */
  ghost predicate BytesMatch(q: Query, s: Schema) {
    && (forall p :: p in PatternsOf(SimplesOf(q.where)) ==> ConstEncodes(p, s))
    && (forall x :: x in ExprsOf(SimplesOf(q.where)) ==> ExprEncodes(q, s, x))
  }

  ghost predicate HasPatterns(q: Query) {
    PatternsOf(SimplesOf(q.where)) != [] && forall n :: n in NotsOf(q.where) ==> PatternsOf(n) != []
  }

  /** The query and every negation has a pattern, no input is misused, every input has its
      place, and bytes are compared with bytes. */
  ghost predicate Compilable(q: Query, s: Schema, vs: seq<Value>) {
    && HasPatterns(q)
    && AllPlaceable(q, s, vs)
    && (forall x :: !Misused(q, x))
    && BytesMatch(q, s)
  }

  // ---------------------------------------------------------------------
  // What binding keeps
  // ---------------------------------------------------------------------

  predicate KeptTable(tb0: TableBinding, tb: TableBinding) {
    && tb.pattern == tb0.pattern && tb.valueType == tb0.valueType
    && if tb.pattern.v.EVar? then BoundEncodes(tb) else tb.vBound == tb0.vBound
  }

  predicate KeptArg(a0: FilterArg, a: FilterArg) {
    a == a0 || (a0.FVar? && a0.table == -1 && a.FConst? && a.valueType == a0.valueType && ArgEncodes(a))
  }

  ghost predicate KeptArgs(args0: seq<FilterArg>, args: seq<FilterArg>) {
    |args| == |args0| && forall k :: 0 <= k < |args| ==> KeptArg(args0[k], args[k])
  }

  ghost predicate KeptTables(tbs0: seq<TableBinding>, tbs: seq<TableBinding>) {
    |tbs| == |tbs0| && forall i :: 0 <= i < |tbs| ==> KeptTable(tbs0[i], tbs[i])
  }

  ghost predicate KeptFilters(fs0: seq<Filter>, fs: seq<Filter>) {
    |fs| == |fs0| && forall i :: 0 <= i < |fs| ==> KeptArgs(fs0[i].args, fs[i].args)
  }

  ghost predicate KeptBody(b0: Body, b: Body) {
    KeptTables(b0.tables, b.tables) && b.joins == b0.joins && KeptFilters(b0.filters, b.filters)
  }

  lemma {:induction false} TableKept(tb0: TableBinding, tb: TableBinding, x: Var, v: Value)
    requires KeptTable(tb0, tb) && HasInput(tb.pattern, x) && BindTable(tb, x, v).Ok?
    ensures KeptTable(tb0, BindTable(tb, x, v).value)
  {
  }

  lemma {:induction false} FilterInputKept(a0: FilterArg, args: seq<FilterArg>, j: int, x: Var, v: Value)
    requires 0 <= j < |args| && KeptArg(a0, args[j]) && IsInput(args[j], x) && FilterInput(args[j], args, v).Ok?
    ensures KeptArg(a0, FilterInput(args[j], args, v).value)
  {
  }

  lemma {:induction false} InputKept(b0: Body, b: Body, x: Var, v: Value)
    requires KeptBody(b0, b) && BindInput(b, x, v).Ok?
    ensures KeptBody(b0, BindInput(b, x, v).value)
  {
    var t := TableWithInput(b.tables, x, 0);
    hide KeptTable, KeptArg, HasInput, IsInput, BindTable, FilterInput;
    if t.Some? {
      TableKept(b0.tables[t.value], b.tables[t.value], x, v);
    } else {
      var i := FilterWithInput(b.filters, x, 0).value;
      var j := ArgWithInput(b.filters[i].args, x, 0).value;
      FilterInputKept(b0.filters[i].args[j], b.filters[i].args, j, x, v);
    }
  }

  lemma {:induction false} StartKept(ps: seq<Pattern>, s: Schema, b: Body)
    requires b.tables == TablesFor(ps, s)
    ensures KeptBody(b, b)
  {
  }

  lemma {:induction false} BodyKept(b0: Body, zs: seq<Var>, vs: seq<Value>)
    requires KeptBody(b0, b0) && |zs| <= |vs| && BindInputs(b0, zs, vs).Ok?
    ensures KeptBody(b0, BindInputs(b0, zs, vs).value)
    decreases |zs|
  {
    hide KeptBody, BindInput;
    if zs != [] {
      var n := |zs| - 1;
      BodyKept(b0, zs[..n], vs);
      InputKept(b0, BindInputs(b0, zs[..n], vs).value, zs[n], vs[n]);
    }
  }

  // ---------------------------------------------------------------------
  // When binding goes through
  // ---------------------------------------------------------------------

  lemma {:induction false} KeptType(args0: seq<FilterArg>, args: seq<FilterArg>)
    requires KeptArgs(args0, args)
    ensures FirstType(args) == FirstType(args0)
  {
    if args != [] {
      assert KeptArg(args0[0], args[0]) && args[0].valueType == args0[0].valueType;
      hide KeptArg;
      forall k | 0 <= k < |args[1..]| ensures KeptArg(args0[1..][k], args[1..][k]) {
        assert KeptArg(args0[k + 1], args[k + 1]);
      }
      KeptType(args0[1..], args[1..]);
    }
  }

  lemma {:induction false} LentIsFirst(args: seq<FilterArg>, t: Option<ValueType>)
    requires forall n :: 0 <= n < |args| && args[n].FConst? ==> args[n].valueType.None?
    requires t == InferredType(args)
    ensures FirstType(Typed(args, t)) == t
  {
    if args != [] {
      if args[0].FVar? && args[0].valueType.None? {
        LentIsFirst(args[1..], t);
      } else if args[0].FConst? && t.None? {
        LentIsFirst(args[1..], t);
      }
      assert Typed(args, t)[1..] == Typed(args[1..], t);
    }
  }

  lemma {:induction false} SameFirst(ps: seq<Pattern>, tbs: seq<TableBinding>, x: Var)
    requires |tbs| == |ps| && forall k :: 0 <= k < |ps| ==> tbs[k].pattern == ps[k]
    ensures TableWithInput(tbs, x, 0) == FirstPattern(ps, x, 0)
  {
    hide HasInput;
    var t, p := TableWithInput(tbs, x, 0), FirstPattern(ps, x, 0);
    if t.Some? {
      assert HasInput(ps[t.value], x);
    }
    if p.Some? {
      assert HasInput(tbs[p.value].pattern, x);
    }
  }

  lemma {:induction false} FitsExactly(tb: TableBinding, x: Var, v: Value)
    requires HasInput(tb.pattern, x)
    ensures BindTable(tb, x, v).Ok? <==> (tb.pattern.v == EVar(x) ==> FitsColumn(tb.valueType, v))
  {
    if tb.valueType.Some? && TypedColumnOf(tb.valueType.value).None? {
      OnlyBytesEncode(v, tb.valueType.value);
    }
  }

  lemma {:induction false} FilterFitsExactly(a: FilterArg, args: seq<FilterArg>, v: Value)
    requires a.valueType.None?
    ensures FilterInput(a, args, v).Ok? <==> (FirstType(args) == Some(TBytes) ==> v.VBytes?)
  {
    var t := FirstType(args);
    if t.Some? && TypedColumnOf(t.value).None? {
      OnlyBytesEncode(v, t.value);
    }
  }

  /** The state of binding once some inputs are bound. */
  ghost predicate Binding(q: Query, s: Schema, b0: Body, bound: set<Var>, b: Body) {
    var ps, xs, ins := PatternsOf(SimplesOf(q.where)), ExprsOf(SimplesOf(q.where)), (set x | x in q.ins);
    && b0.tables == TablesFor(ps, s) && b0.filters == ResolvedFilters(ps, TypesFrom(ps, s, map[]), ins, xs)
    && KeptBody(b0, b) && Marks(ps, xs, ins, bound, b)
  }

  lemma {:induction false} ResolvedUntyped(ps: seq<Pattern>, types: map<Var, ValueType>, ins: set<Var>, els: seq<Elem>)
    ensures var args := ResolvedArgs(ps, types, ins, els);
            forall n :: 0 <= n < |args| && args[n].FConst? ==> args[n].valueType.None?
  {
    hide LocsFrom;
  }

  lemma {:induction false} BindingFilter(q: Query, s: Schema, b0: Body, bound: set<Var>, b: Body, i: int)
    requires Binding(q, s, b0, bound, b) && 0 <= i < |ExprsOf(SimplesOf(q.where))|
    ensures var ps, xs, ins := PatternsOf(SimplesOf(q.where)), ExprsOf(SimplesOf(q.where)), (set y | y in q.ins);
            i < |b.filters| && KeptArgs(ResolvedFilter(ps, TypesFrom(ps, s, map[]), ins, xs[i]).args, b.filters[i].args)
  {
    hide PatternsOf, ExprsOf, SimplesOf, Marks, KeptTables, KeptArgs, ResolvedFilter, TablesFor, TypesFrom;
  }

  lemma {:induction false} FilterLends(ps: seq<Pattern>, types: map<Var, ValueType>, ins: set<Var>, x: Expr,
                                       args: seq<FilterArg>)
    requires KeptArgs(ResolvedFilter(ps, types, ins, x).args, args)
    ensures FirstType(args) == InferredType(ResolvedArgs(ps, types, ins, x.args))
  {
    var args0 := ResolvedArgs(ps, types, ins, x.args);
    hide KeptArgs, ResolvedArgs, Typed, InferredType, FirstType, LocsFrom;
    ResolvedUntyped(ps, types, ins, x.args);
    LentIsFirst(args0, InferredType(args0));
    KeptType(Typed(args0, InferredType(args0)), args);
  }

  lemma {:induction false} LentToFilter(q: Query, s: Schema, b0: Body, bound: set<Var>, b: Body, i: int)
    requires Binding(q, s, b0, bound, b) && 0 <= i < |ExprsOf(SimplesOf(q.where))|
    ensures i < |b.filters| && FirstType(b.filters[i].args) == LentType(q, s, ExprsOf(SimplesOf(q.where))[i])
  {
    var ps, xs, ins := PatternsOf(SimplesOf(q.where)), ExprsOf(SimplesOf(q.where)), (set y | y in q.ins);
    hide Binding, PatternsOf, ExprsOf, SimplesOf, KeptArgs, ResolvedFilter, ResolvedArgs, InferredType, FirstType,
      TypesFrom;
    BindingFilter(q, s, b0, bound, b, i);
    FilterLends(ps, TypesFrom(ps, s, map[]), ins, xs[i], b.filters[i].args);
  }

  lemma {:induction false} UnplacedUntyped(ps: seq<Pattern>, s: Schema, x: Var)
    requires FirstPattern(ps, x, 0).None?
    ensures x !in TypesFrom(ps, s, map[])
  {
    Compiler.TypesAreOfPlaces(ps, s, map[], x);
    hide TypesFrom;
    assert forall i :: 0 <= i < |ps| ==> !HasInput(ps[i], x);
  }

  lemma {:induction false} MarkerType(q: Query, s: Schema, b0: Body, bound: set<Var>, b: Body, x: Var, i: int, j: int)
    requires Binding(q, s, b0, bound, b) && MarkerAt(b.filters, x, i, j)
    requires FirstPattern(PatternsOf(SimplesOf(q.where)), x, 0).None?
    ensures b.filters[i].args[j].valueType.None?
  {
    var ps, xs, ins := PatternsOf(SimplesOf(q.where)), ExprsOf(SimplesOf(q.where)), (set y | y in q.ins);
    var types := TypesFrom(ps, s, map[]);
    UnplacedUntyped(ps, s, x);
    hide PatternsOf, ExprsOf, SimplesOf, Marks, KeptTables, TablesFor, TypesFrom, FirstPattern, LocsFrom, InferredType;
    assert KeptArg(b0.filters[i].args[j], b.filters[i].args[j]);
    var args := ResolvedArgs(ps, types, ins, xs[i].args);
    assert b0.filters[i].args[j] == Typed(args, InferredType(args))[j];
    assert args[j] == ResolvedArg(LocsFrom(ps, VarName(xs[i].args[j])), types, ins, xs[i].args[j]);
  }

  /** An input can be bound exactly when it is placeable, whatever was bound before it. */
  lemma {:induction false} BindsOneExactly(q: Query, s: Schema, b0: Body, bound: set<Var>, b: Body, x: Var, v: Value)
    requires Binding(q, s, b0, bound, b) && x in q.ins && x !in bound
    ensures BindInput(b, x, v).Ok? <==> Placeable(q, s, x, v)
  {
    var ps, xs, ins := PatternsOf(SimplesOf(q.where)), ExprsOf(SimplesOf(q.where)), (set y | y in q.ins);
    SameFirst(ps, b.tables, x);
    var t := FirstPattern(ps, x, 0);
    if t.Some? {
      assert KeptTable(b0.tables[t.value], b.tables[t.value]);
      FitsExactly(b.tables[t.value], x, v);
    } else {
      BindsUse(q, s, b0, bound, b, x, v);
    }
  }

  lemma {:induction false} BindsUse(q: Query, s: Schema, b0: Body, bound: set<Var>, b: Body, x: Var, v: Value)
    requires Binding(q, s, b0, bound, b) && x in q.ins && x !in bound
    requires FirstPattern(PatternsOf(SimplesOf(q.where)), x, 0).None? && TableWithInput(b.tables, x, 0).None?
    ensures BindInput(b, x, v).Ok? <==> Placeable(q, s, x, v)
  {
    var ps, xs, ins := PatternsOf(SimplesOf(q.where)), ExprsOf(SimplesOf(q.where)), (set y | y in q.ins);
    var f := FilterWithInput(b.filters, x, 0);
    assert forall i, j :: MarkerAt(b.filters, x, i, j) <==> StillMarked(ps, xs, ins, bound, x, i, j);
    if f.None? {
      NoMarker(b.filters, x);
      hide PatternsOf, ExprsOf, SimplesOf, MarkerAt, FirstUse, FirstPattern, LentType;
      assert forall i, j :: UsedAt(xs, x, i, j) ==> StillMarked(ps, xs, ins, bound, x, i, j);
    } else {
      var i := f.value;
      var j := ArgWithInput(b.filters[i].args, x, 0).value;
      FoundIsFirst(ps, xs, ins, bound, b, x);
      MarkerType(q, s, b0, bound, b, x, i, j);
      LentToFilter(q, s, b0, bound, b, i);
      FilterFitsExactly(b.filters[i].args[j], b.filters[i].args, v);
      hide Binding, PatternsOf, ExprsOf, SimplesOf, MarkerAt, FirstPattern, LentType, FilterInput, Marks, KeptBody;
      forall i', j' | FirstUse(xs, x, i', j') ensures i' == i && j' == j {
        FirstIsOne(xs, x, i, j, i', j');
      }
      assert UsedAt(xs, x, i, j);
    }
  }

  lemma {:induction false} NoMarker(fs: seq<Filter>, x: Var)
    requires FilterWithInput(fs, x, 0).None?
    ensures forall i, j :: !MarkerAt(fs, x, i, j)
  {
    forall i, j ensures !MarkerAt(fs, x, i, j) {
      if 0 <= i < |fs| {
        assert ArgWithInput(fs[i].args, x, 0).None?;
      }
    }
  }

  lemma {:induction false} BindingStep(q: Query, s: Schema, b0: Body, bound: set<Var>, b: Body, x: Var, v: Value)
    requires Binding(q, s, b0, bound, b) && x !in bound && BindInput(b, x, v).Ok?
    ensures Binding(q, s, b0, bound + {x}, BindInput(b, x, v).value)
  {
    hide PatternsOf, ExprsOf, SimplesOf, Marks, KeptBody, BindInput, TypesFrom, TablesFor, ResolvedFilters;
    InputKept(b0, b, x, v);
    MarksStep(PatternsOf(SimplesOf(q.where)), ExprsOf(SimplesOf(q.where)), (set y | y in q.ins), bound, b, x, v);
  }

  lemma {:induction false} BindsSome(q: Query, s: Schema, b0: Body, n: nat, vs: seq<Value>)
    requires Binding(q, s, b0, {}, b0) && Distinct(q.ins) && n <= |q.ins| <= |vs|
    ensures BindInputs(b0, q.ins[..n], vs).Ok? <==> forall i :: 0 <= i < n ==> Placeable(q, s, q.ins[i], vs[i])
    ensures BindInputs(b0, q.ins[..n], vs).Ok?
            ==> Binding(q, s, b0, (set x | x in q.ins[..n]), BindInputs(b0, q.ins[..n], vs).value)
  {
    hide Binding, Placeable, BindInput;
    var zs := q.ins[..n];
    if n == 0 {
      assert (set x | x in zs) == {};
    } else {
      var m := n - 1;
      BindsSome(q, s, b0, m, vs);
      assert zs[..m] == q.ins[..m] && zs[m] == q.ins[m];
      var bound := set x | x in q.ins[..m];
      assert (set x | x in zs) == bound + {zs[m]};
      if BindInputs(b0, q.ins[..m], vs).Ok? {
        var b := BindInputs(b0, q.ins[..m], vs).value;
        BindsOneExactly(q, s, b0, bound, b, zs[m], vs[m]);
        if BindInput(b, zs[m], vs[m]).Ok? {
          BindingStep(q, s, b0, bound, b, zs[m], vs[m]);
        }
      }
    }
  }

  lemma {:induction false} StartBinding(q: Query, s: Schema, aq: Algebraic)
    requires IsAlgebraOf(q, s, aq)
    ensures Binding(q, s, aq.body, {}, aq.body)
  {
    AlgebraMarks(q, s, aq);
    assert aq.body.tables == TablesFor(PatternsOf(SimplesOf(q.where)), s);
    StartKept(PatternsOf(SimplesOf(q.where)), s, aq.body);
    hide PatternsOf, ExprsOf, SimplesOf, NotsOf, Marks, KeptBody, IsStarJoin, IsInner, ResolvedFind, TablesFor,
      ResolvedFilters, TypesFrom;
  }

  /** Binding goes through exactly when there are enough arguments and each is placeable. */
  lemma {:induction false} BindsExactly(q: Query, s: Schema, vs: seq<Value>, aq: Algebraic)
    requires IsAlgebraOf(q, s, aq) && Distinct(q.ins)
    ensures BindAll(aq, q.ins, vs).Ok? <==> AllPlaceable(q, s, vs)
    ensures BindAll(aq, q.ins, vs).Ok?
            ==> Binding(q, s, aq.body, (set x | x in q.ins), BindAll(aq, q.ins, vs).value.body)
  {
    StartBinding(q, s, aq);
    hide IsAlgebraOf, Binding, BindInputs, Placeable, Distinct;
    if |q.ins| <= |vs| {
      assert q.ins[..|q.ins|] == q.ins;
      BindsSome(q, s, aq.body, |q.ins|, vs);
    }
  }

  // ---------------------------------------------------------------------
  // When translation goes through
  // ---------------------------------------------------------------------

  predicate RealOrMarker(n: nat, a: FilterArg) {
    a.FVar? ==> a.table == -1 || 0 <= a.table < n
  }

  lemma {:induction false} PlacesIndexed(ps: seq<Pattern>, x: Var)
    ensures forall l :: l in LocsFrom(ps, x) ==> 0 <= l.table < |ps|
  {
    forall l | l in LocsFrom(ps, x) ensures 0 <= l.table < |ps| {
      PlaceIff(ps, x, l);
    }
  }

  lemma {:induction false} StarIndexed(ps: seq<Pattern>, j: Join)
    requires IsStarJoin(ps, j)
    ensures 0 <= j.leftTable < |ps| && 0 <= j.rightTable < |ps|
  {
    hide LocsFrom;
    PlacesIndexed(ps, j.x);
    var locs := LocsFrom(ps, j.x);
    var k :| 1 <= k < |locs| && j == StarJoin(j.x, locs, k);
    assert locs[0] in locs && locs[k] in locs;
  }

  lemma {:induction false} ResolvedReal(ps: seq<Pattern>, types: map<Var, ValueType>, ins: set<Var>, x: Expr, k: int)
    requires 0 <= k < |x.args|
    ensures var a := ResolvedFilter(ps, types, ins, x).args[k];
            RealOrMarker(|ps|, a) && (ins == {} && a.FVar? ==> a.table != -1)
  {
    hide LocsFrom, InferredType;
    var args := ResolvedArgs(ps, types, ins, x.args);
    assert args[k] == ResolvedArg(LocsFrom(ps, VarName(x.args[k])), types, ins, x.args[k]);
    var locs := LocsFrom(ps, VarName(x.args[k]));
    PlacesIndexed(ps, VarName(x.args[k]));
    assert locs != [] ==> locs[0] in locs;
  }

  /** The arguments left in filters are real places, or markers. */
  lemma {:induction false} BoundReal(q: Query, s: Schema, b0: Body, bound: set<Var>, b: Body, i: int, k: int)
    requires Binding(q, s, b0, bound, b) && 0 <= i < |b.filters| && 0 <= k < |b.filters[i].args|
    ensures RealOrMarker(|PatternsOf(SimplesOf(q.where))|, b.filters[i].args[k])
  {
    var ps, xs, ins := PatternsOf(SimplesOf(q.where)), ExprsOf(SimplesOf(q.where)), (set y | y in q.ins);
    hide PatternsOf, ExprsOf, SimplesOf, Marks, TablesFor, KeptTables, TypesFrom, ResolvedArgs, Typed, LocsFrom;
    assert KeptArg(b0.filters[i].args[k], b.filters[i].args[k]);
    ResolvedReal(ps, TypesFrom(ps, s, map[]), ins, xs[i], k);
  }

  lemma {:induction false} BoundFiltersIndexed(q: Query, s: Schema, b0: Body, bound: set<Var>, b: Body)
    requires Binding(q, s, b0, bound, b)
    ensures |b.tables| == |PatternsOf(SimplesOf(q.where))|
    ensures (forall f :: f in b.filters ==> Translate.FilterIndexed(b.tables, f))
            <==> !exists x, i, j :: MarkerAt(b.filters, x, i, j)
  {
    var n := |PatternsOf(SimplesOf(q.where))|;
    assert |b.tables| == n by {
      hide PatternsOf, ExprsOf, SimplesOf, Marks, KeptFilters, ResolvedFilters, TypesFrom;
    }
    forall i, k | 0 <= i < |b.filters| && 0 <= k < |b.filters[i].args| ensures RealOrMarker(n, b.filters[i].args[k]) {
      BoundReal(q, s, b0, bound, b, i, k);
    }
    hide Binding, PatternsOf, SimplesOf;
    if x, i, j :| MarkerAt(b.filters, x, i, j) {
      assert b.filters[i] in b.filters && b.filters[i].args[j] in b.filters[i].args;
    } else {
      forall i, k | 0 <= i < |b.filters| && 0 <= k < |b.filters[i].args| && b.filters[i].args[k].FVar?
        ensures Translate.Indexed(b.tables, b.filters[i].args[k].table)
      {
        assert !MarkerAt(b.filters, b.filters[i].args[k].x, i, k);
      }
    }
  }

  lemma {:induction false} AddedIndexed(n: nat, view: View, f: Filter)
    requires f in AddedFilters(n, view)
    ensures forall a :: a in f.args ==> ArgEncodes(a) && (a.FVar? ==> 0 <= a.table < n)
  {
    if f !in FiltersAt(n - 1, view) {
      AddedIndexed(n - 1, view, f);
    }
  }

  /** What is translated: the bound query, under the view if there is one. */
  function Viewed(aq: Algebraic, view: View): Algebraic {
    if view.IsAsOf() then ApplyAsOf(aq, view) else aq
  }

  function ViewedBody(b: Body, view: View): Body {
    b.(tables := OnLog(b.tables), filters := b.filters + AddedFilters(|b.tables|, view))
  }

  /** A view refers to no other tables and compares no bytes. */
  lemma {:induction false} ViewedSame(b: Body, view: View)
    ensures Translate.BodyIndexed(ViewedBody(b, view)) <==> Translate.BodyIndexed(b)
    ensures Encodes(ViewedBody(b, view).tables, ViewedBody(b, view).filters) <==> Encodes(b.tables, b.filters)
  {
    var b', added := ViewedBody(b, view), AddedFilters(|b.tables|, view);
    hide AddedFilters, ArgEncodes;
    forall f | f in added
      ensures Translate.FilterIndexed(b'.tables, f) && forall a :: a in f.args ==> ArgEncodes(a)
    {
      AddedIndexed(|b.tables|, view, f);
    }
    forall f ensures Translate.FilterIndexed(b'.tables, f) <==> Translate.FilterIndexed(b.tables, f) { }
    forall f ensures f in b'.filters <==> f in b.filters || f in added { }
    forall i | 0 <= i < |b.tables|
      ensures BoundEncodes(b'.tables[i]) <==> BoundEncodes(b.tables[i])
      ensures b.tables[i] in b.tables && b'.tables[i] in b'.tables
    {
    }
    hide Translate.FilterIndexed, BoundEncodes, OnLog;
  }

  lemma {:induction false} InnerFiltersIndexed(body: seq<Simple>, s: Schema, parent: map<Var, ValueType>, n: nat,
                                               f: Filter)
    requires n <= |body| && f in InnerFilters(body[..n], s, parent)
    ensures forall a :: a in f.args && a.FVar? ==> 0 <= a.table < |PatternsOf(body)|
  {
    var m := n - 1;
    assert body[..n][..m] == body[..m];
    if f in InnerFilters(body[..m], s, parent) {
      hide PatternsOf, ResolvedFilter, TypesFrom;
      InnerFiltersIndexed(body, s, parent, m, f);
    } else {
      hide PatternsOf, ResolvedArgs, Typed, TypesFrom;
      PatternsPrefix(body, m);
      var x := body[m].x;
      forall k | 0 <= k < |f.args| && f.args[k].FVar? ensures 0 <= f.args[k].table < |PatternsOf(body)| {
        ResolvedReal(PatternsOf(body[..m]), TypesFrom(PatternsOf(body[..m]), s, parent), {}, x, k);
      }
    }
  }

  /** A negation translates exactly when it has a pattern and every join has a left table. */
  lemma {:induction false} InnerIndexedExactly(ps: seq<Pattern>, ins: set<Var>, s: Schema, body: seq<Simple>, b: Body,
                                               outer: seq<TableBinding>)
    requires IsInner(ps, ins, s, body, b) && |outer| == |ps|
    ensures Translate.NotIndexed(outer, b) <==> PatternsOf(body) != [] && !exists j :: j in b.joins && j.leftTable == -1
  {
    var qs := PatternsOf(body);
    hide PatternsOf, TablesFor, IsStarJoin, IsCorrelation, InnerFilters, TypesFrom;
    forall j | j in b.joins ensures 0 <= j.rightTable < |qs|
      && (j.leftTable == -1 || 0 <= j.leftTable < |qs| || 0 <= j.leftTable < |ps|) {
      if IsStarJoin(qs, j) {
        StarIndexed(qs, j);
      } else {
        CorrelationIndexed(ps, ins, qs, j);
      }
    }
    forall f | f in b.filters ensures Translate.FilterIndexed(b.tables, f) {
      assert body[..|body|] == body;
      InnerFiltersIndexed(body, s, TypesFrom(ps, s, map[]), |body|, f);
    }
  }

  lemma {:induction false} CorrelationIndexed(ps: seq<Pattern>, ins: set<Var>, qs: seq<Pattern>, j: Join)
    requires IsCorrelation(ps, ins, qs, j)
    ensures 0 <= j.rightTable < |qs| && (j.leftTable == -1 || 0 <= j.leftTable < |ps|)
  {
    hide LocsFrom;
    PlacesIndexed(qs, j.x);
    PlacesIndexed(ps, j.x);
    assert LocsFrom(qs, j.x)[0] in LocsFrom(qs, j.x);
    assert LocsFrom(ps, j.x) != [] ==> LocsFrom(ps, j.x)[0] in LocsFrom(ps, j.x);
  }

  lemma {:induction false} NotsIndexedExactly(ps: seq<Pattern>, ins: set<Var>, s: Schema, nots: seq<seq<Simple>>,
                                              bs: seq<Body>, outer: seq<TableBinding>)
    requires |bs| == |nots| && (forall i :: 0 <= i < |bs| ==> IsInner(ps, ins, s, nots[i], bs[i])) && |outer| == |ps|
    ensures (forall n :: n in bs ==> Translate.NotIndexed(outer, n))
            <==> (forall n :: n in nots ==> PatternsOf(n) != []) && !NotDangles(bs)
  {
    hide IsInner, PatternsOf, Translate.NotIndexed;
    forall i | 0 <= i < |bs|
      ensures Translate.NotIndexed(outer, bs[i])
              <==> PatternsOf(nots[i]) != [] && !exists j :: j in bs[i].joins && j.leftTable == -1
      ensures bs[i] in bs && nots[i] in nots
    {
      InnerIndexedExactly(ps, ins, s, nots[i], bs[i], outer);
    }
  }

  lemma {:induction false} FindIndexedExactly(ps: seq<Pattern>, types: map<Var, ValueType>, ins: set<Var>,
                                              find: seq<Var>, fs: seq<FindMapping>)
    requires |fs| == |find| && forall i :: 0 <= i < |find| ==> fs[i] == ResolvedFind(ps, types, ins, find[i])
    ensures (forall m :: m in fs ==> 0 <= m.table < |ps|) <==> !exists m :: m in fs && m.table == -1
  {
    hide LocsFrom;
    forall i | 0 <= i < |fs| ensures fs[i].table == -1 || 0 <= fs[i].table < |ps| {
      PlacesIndexed(ps, find[i]);
      var locs := LocsFrom(ps, find[i]);
      assert locs != [] ==> locs[0] in locs;
    }
  }

  lemma {:induction false} ReadyParts(q: Query, s: Schema, vs: seq<Value>, aq: Algebraic)
    requires IsAlgebraOf(q, s, aq) && BindAll(aq, q.ins, vs).Ok?
    ensures var ps, nots, ins := PatternsOf(SimplesOf(q.where)), NotsOf(q.where), (set x | x in q.ins);
            var bound := BindAll(aq, q.ins, vs).value;
            && bound.find == aq.find && bound.nots == aq.nots && |aq.find| == |q.find| && |aq.nots| == |nots|
            && (forall j :: j in aq.body.joins <==> IsStarJoin(ps, j))
            && (forall i :: 0 <= i < |q.find|
                  ==> aq.find[i] == ResolvedFind(ps, TypesFrom(ps, s, map[]), ins, q.find[i]))
            && (forall i :: 0 <= i < |nots| ==> IsInner(ps, ins, s, nots[i], aq.nots[i]))
  {
    hide PatternsOf, ExprsOf, SimplesOf, NotsOf, TypesFrom, ResolvedFind, ResolvedFilters, IsInner, IsStarJoin,
      TablesFor, BindInputs;
  }

  lemma {:induction false} JoinsIndexed(ps: seq<Pattern>, js: seq<Join>)
    requires forall j :: j in js <==> IsStarJoin(ps, j)
    ensures forall j :: j in js ==> 0 <= j.leftTable < |ps| && 0 <= j.rightTable < |ps|
  {
    hide IsStarJoin;
    forall j | j in js ensures 0 <= j.leftTable < |ps| && 0 <= j.rightTable < |ps| {
      StarIndexed(ps, j);
    }
  }

  lemma {:induction false} BodyIndexedExactly(q: Query, s: Schema, b0: Body, bound: set<Var>, b: Body)
    requires Binding(q, s, b0, bound, b) && forall j :: j in b0.joins <==> IsStarJoin(PatternsOf(SimplesOf(q.where)), j)
    ensures Translate.BodyIndexed(b) <==> !exists x, i, j :: MarkerAt(b.filters, x, i, j)
  {
    assert b.joins == b0.joins by {
      hide PatternsOf, ExprsOf, SimplesOf, Marks, KeptFilters, KeptTables, ResolvedFilters, TypesFrom, TablesFor;
    }
    BoundFiltersIndexed(q, s, b0, bound, b);
    JoinsIndexed(PatternsOf(SimplesOf(q.where)), b.joins);
    hide Binding, PatternsOf, SimplesOf, MarkerAt, IsStarJoin, Translate.FilterIndexed;
  }

  lemma {:induction false} NotIndexedSame(outer: seq<TableBinding>, outer': seq<TableBinding>, n: Body)
    requires |outer| == |outer'|
    ensures Translate.NotIndexed(outer, n) <==> Translate.NotIndexed(outer', n)
  {
  }

  /** A view changes nothing about translation. */
  lemma {:induction false} ViewedTranslates(aq: Algebraic, view: View)
    ensures Translate.Translatable(Viewed(aq, view)) <==> Translate.Translatable(aq)
  {
    ViewedSame(aq.body, view);
    var final := Viewed(aq, view);
    hide AddedFilters, AddedRaws, Translate.BodyIndexed, Translate.NotIndexed;
    forall n ensures Translate.NotIndexed(final.body.tables, n) <==> Translate.NotIndexed(aq.body.tables, n) {
      NotIndexedSame(final.body.tables, aq.body.tables, n);
    }
    assert |final.body.tables| == |aq.body.tables|;
    hide OnLog;
  }

  lemma {:induction false} BoundTranslates(q: Query, s: Schema, aq: Algebraic, bound: Algebraic)
    requires var ps, nots, ins := PatternsOf(SimplesOf(q.where)), NotsOf(q.where), (set x | x in q.ins);
      && Binding(q, s, aq.body, ins, bound.body) && |bound.find| == |q.find| && |bound.nots| == |nots|
      && (forall j :: j in aq.body.joins <==> IsStarJoin(ps, j))
      && (forall i :: 0 <= i < |q.find| ==> bound.find[i] == ResolvedFind(ps, TypesFrom(ps, s, map[]), ins, q.find[i]))
      && (forall i :: 0 <= i < |nots| ==> IsInner(ps, ins, s, nots[i], bound.nots[i]))
    ensures Translate.Translatable(bound) <==>
            HasPatterns(q) && !Dangles(bound)
  {
    var ps, nots, ins := PatternsOf(SimplesOf(q.where)), NotsOf(q.where), (set x | x in q.ins);
    hide Binding, PatternsOf, SimplesOf, NotsOf, MarkerAt, NotDangles, IsInner, IsStarJoin, ResolvedFind, TypesFrom,
      Translate.BodyIndexed, Translate.NotIndexed;
    BodyIndexedExactly(q, s, aq.body, ins, bound.body);
    BoundFiltersIndexed(q, s, aq.body, ins, bound.body);
    NotsIndexedExactly(ps, ins, s, nots, bound.nots, bound.body.tables);
    FindIndexedExactly(ps, TypesFrom(ps, s, map[]), ins, q.find, bound.find);
  }

  /** A bound query translates, with or without a view, exactly when it and every negation
      has a pattern and no input is misused. */
  lemma {:induction false} TranslatesExactly(q: Query, s: Schema, vs: seq<Value>, view: View, aq: Algebraic)
    requires IsAlgebraOf(q, s, aq) && Algebrize.Accepted(q, s) && Distinct(q.ins) && BindAll(aq, q.ins, vs).Ok?
    ensures Translate.Translatable(Viewed(BindAll(aq, q.ins, vs).value, view)) <==>
            HasPatterns(q) && forall x :: !Misused(q, x)
  {
    var bound := BindAll(aq, q.ins, vs).value;
    AcceptedFind(q, s);
    hide IsAlgebraOf, BindAll, Binding, HasPatterns, PatternsOf, SimplesOf, NotsOf, IsInner, IsStarJoin, ResolvedFind,
      TypesFrom, LocsFrom, Misused, Dangles, Viewed,
      Distinct, Algebrize.Accepted, Translate.Translatable;
    BindsExactly(q, s, vs, aq);
    DanglesExactly(q, s, aq, vs);
    ReadyParts(q, s, vs, aq);
    BoundTranslates(q, s, aq, bound);
    ViewedTranslates(bound, view);
  }

  lemma {:induction false} AcceptedFind(q: Query, s: Schema)
    requires Algebrize.Accepted(q, s)
    ensures forall x :: x in q.find && x !in q.ins ==> LocsFrom(PatternsOf(SimplesOf(q.where)), x) != []
  {
  }

  // ---------------------------------------------------------------------
  // When encodeParams goes through
  // ---------------------------------------------------------------------

  lemma {:induction false} TableEncodesExactly(p: Pattern, s: Schema, i: int, tb: TableBinding)
    requires KeptTable(TableFor(i, p, s), tb)
    ensures BoundEncodes(tb) <==> ConstEncodes(p, s)
  {
  }

  lemma {:induction false} ArgEncodesExactly(ps: seq<Pattern>, types: map<Var, ValueType>, ins: set<Var>, x: Expr,
                                             k: int, a: FilterArg)
    requires 0 <= k < |x.args| && Algebrize.ArgResolves(ins, ps, x.args[k])
    requires KeptArg(ResolvedFilter(ps, types, ins, x).args[k], a)
    ensures ArgEncodes(a) <==> (InferredType(ResolvedArgs(ps, types, ins, x.args)) == Some(TBytes)
                                ==> ArgIsBytes(x.args[k]))
  {
    hide LocsFrom, InferredType;
    var args := ResolvedArgs(ps, types, ins, x.args);
    assert args[k] == ResolvedArg(LocsFrom(ps, VarName(x.args[k])), types, ins, x.args[k]);
  }

  lemma {:induction false} FilterEncodesExactly(q: Query, s: Schema, b0: Body, bound: set<Var>, b: Body, i: int)
    requires Binding(q, s, b0, bound, b) && 0 <= i < |ExprsOf(SimplesOf(q.where))|
    requires Algebrize.ExprResolves((set y | y in q.ins), PatternsOf(SimplesOf(q.where)),
                                    ExprsOf(SimplesOf(q.where))[i])
    ensures i < |b.filters| && ((forall a :: a in b.filters[i].args ==> ArgEncodes(a))
                                <==> ExprEncodes(q, s, ExprsOf(SimplesOf(q.where))[i]))
  {
    var ps, xs, ins := PatternsOf(SimplesOf(q.where)), ExprsOf(SimplesOf(q.where)), (set y | y in q.ins);
    BindingFilter(q, s, b0, bound, b, i);
    hide Binding, PatternsOf, ExprsOf, SimplesOf, ResolvedFilter, ArgEncodes, ArgIsBytes, TypesFrom, ResolvedArgs,
      InferredType, KeptArg, Algebrize.ArgResolves;
    var args := b.filters[i].args;
    assert |args| == |xs[i].args| by { FilterSize(ps, TypesFrom(ps, s, map[]), ins, xs[i]); }
    forall k | 0 <= k < |args|
      ensures ArgEncodes(args[k]) <==> (LentType(q, s, xs[i]) == Some(TBytes) ==> ArgIsBytes(xs[i].args[k]))
      ensures args[k] in args && xs[i].args[k] in xs[i].args
    {
      assert xs[i].args[k] in xs[i].args;
      ArgEncodesExactly(ps, TypesFrom(ps, s, map[]), ins, xs[i], k, args[k]);
    }
    hide LentType;
  }

  lemma {:induction false} FilterSize(ps: seq<Pattern>, types: map<Var, ValueType>, ins: set<Var>, x: Expr)
    ensures |ResolvedFilter(ps, types, ins, x).args| == |x.args|
  {
  }

  lemma {:induction false} TablesEncodeExactly(q: Query, s: Schema, b0: Body, bound: set<Var>, b: Body)
    requires Binding(q, s, b0, bound, b)
    ensures (forall tb :: tb in b.tables ==> BoundEncodes(tb))
            <==> forall p :: p in PatternsOf(SimplesOf(q.where)) ==> ConstEncodes(p, s)
  {
    var ps := PatternsOf(SimplesOf(q.where));
    hide PatternsOf, ExprsOf, SimplesOf, Binding, ConstEncodes, BoundEncodes, KeptTable, TableFor;
    BindingSizes(q, s, b0, bound, b);
    forall i | 0 <= i < |ps|
      ensures BoundEncodes(b.tables[i]) <==> ConstEncodes(ps[i], s)
      ensures b.tables[i] in b.tables && ps[i] in ps
    {
      TableEncodesExactly(ps[i], s, i, b.tables[i]);
    }
  }

  predicate FilterOK(f: Filter) {
    forall a :: a in f.args ==> ArgEncodes(a)
  }

  lemma {:induction false} FiltersEncodeExactly(q: Query, s: Schema, b0: Body, bound: set<Var>, b: Body)
    requires Binding(q, s, b0, bound, b) && Algebrize.Accepted(q, s)
    ensures (forall f :: f in b.filters ==> FilterOK(f))
            <==> forall x :: x in ExprsOf(SimplesOf(q.where)) ==> ExprEncodes(q, s, x)
  {
    var ps, xs, ins := PatternsOf(SimplesOf(q.where)), ExprsOf(SimplesOf(q.where)), (set y | y in q.ins);
    hide PatternsOf, ExprsOf, SimplesOf, Binding, ExprEncodes, FilterOK, ArgEncodes, KeptFilters, KeptTable, TableFor,
      Algebrize.Accepted, Algebrize.ExprResolves;
    AcceptedExprs(q, s);
    BindingSizes(q, s, b0, bound, b);
    forall i | 0 <= i < |xs|
      ensures FilterOK(b.filters[i]) <==> ExprEncodes(q, s, xs[i])
      ensures b.filters[i] in b.filters && xs[i] in xs
    {
      assert xs[i] in xs;
      FilterEncodesExactly(q, s, b0, bound, b, i);
      FilterOKIs(b.filters[i]);
    }
  }

  lemma {:induction false} AcceptedExprs(q: Query, s: Schema)
    requires Algebrize.Accepted(q, s)
    ensures forall x :: x in ExprsOf(SimplesOf(q.where)) ==>
              Algebrize.ExprResolves((set y | y in q.ins), PatternsOf(SimplesOf(q.where)), x)
  {
    hide PatternsOf, ExprsOf, SimplesOf, NotsOf, LocsFrom, Algebrize.PatternError, Algebrize.ExprResolves,
      Algebrize.BodyAccepted;
  }

  lemma {:induction false} FilterOKIs(f: Filter)
    ensures FilterOK(f) <==> forall a :: a in f.args ==> ArgEncodes(a)
  {
  }

  /** encodeParams accepts the bound query exactly when bytes are compared with bytes. */
  lemma {:induction false} EncodesExactly(q: Query, s: Schema, b0: Body, bound: set<Var>, b: Body)
    requires Binding(q, s, b0, bound, b) && Algebrize.Accepted(q, s)
    ensures Encodes(b.tables, b.filters) <==> BytesMatch(q, s)
  {
    hide Binding, ConstEncodes, BoundEncodes, ExprEncodes, ArgEncodes, PatternsOf, ExprsOf, SimplesOf,
      Algebrize.Accepted;
    TablesEncodeExactly(q, s, b0, bound, b);
    FiltersEncodeExactly(q, s, b0, bound, b);
  }

  lemma {:induction false} BindingSizes(q: Query, s: Schema, b0: Body, bound: set<Var>, b: Body)
    requires Binding(q, s, b0, bound, b)
    ensures |b.tables| == |PatternsOf(SimplesOf(q.where))| && |b.filters| == |ExprsOf(SimplesOf(q.where))|
    ensures var ps := PatternsOf(SimplesOf(q.where)); forall i ::
                                                        0 <= i < |ps| ==> KeptTable(TableFor(i, ps[i], s), b.tables[i])
  {
    hide PatternsOf, ExprsOf, SimplesOf, Marks, KeptArgs, KeptTable, TypesFrom, TableFor, ResolvedFilter;
  }

  // ---------------------------------------------------------------------
  // When a query compiles
  // ---------------------------------------------------------------------

  /** What stands between an algebraic form and its statement. */
  ghost predicate Compiles(q: Query, vs: seq<Value>, view: View, aq: Algebraic) {
    && BindAll(aq, q.ins, vs).Ok?
    && var final := Viewed(BindAll(aq, q.ins, vs).value, view);
    && Translate.Translatable(final) && Encodes(final.body.tables, final.body.filters)
  }

  /** An accepted query compiles exactly when it is compilable: whatever the view, and
      whatever the order of joins in its algebraic form. */
  lemma {:induction false} CompilesExactly(q: Query, s: Schema, vs: seq<Value>, view: View, aq: Algebraic)
    requires IsAlgebraOf(q, s, aq) && Algebrize.Accepted(q, s) && Distinct(q.ins)
    ensures Compiles(q, vs, view, aq) <==> Compilable(q, s, vs)
  {
    hide IsAlgebraOf, Algebrize.Accepted, BindAll, Binding, Encodes, BytesMatch, AllPlaceable, Misused, AddedFilters,
      AddedRaws, OnLog, Translate.Translatable, HasPatterns, Distinct;
    BindsExactly(q, s, vs, aq);
    if BindAll(aq, q.ins, vs).Ok? {
      var b := BindAll(aq, q.ins, vs).value.body;
      TranslatesExactly(q, s, vs, view, aq);
      EncodesExactly(q, s, aq.body, (set x | x in q.ins), b);
      ViewedSame(b, view);
      assert Viewed(BindAll(aq, q.ins, vs).value, view).body == if view.IsAsOf() then ViewedBody(b, view) else b;
    }
  }

  // ---------------------------------------------------------------------
  // An input in a negation
  // ---------------------------------------------------------------------

  /** [:find ?e :in $ ?x :where [?e a ?x] (not [?e b ?x])] */
  function Excluding(e: Var, x: Var, a: Bytes, b: Bytes): Query {
    Query([e], [CSimple(SPattern(Pattern(EVar(e), EConst(VString(a)), EVar(x), EBlank))),
                CNot([SPattern(Pattern(EVar(e), EConst(VString(b)), EVar(x), EBlank))])], [x])
  }

  lemma {:induction false} OneNegation(nots: seq<seq<Simple>>, p: Pattern, x: Var)
    requires |nots| == 1 && PatternsOf(nots[0]) == [p] && x in VarsOf([p])
    ensures InNegation(nots, x)
  {
    hide VarsOf, PatternsOf;
    assert x in VarsOf(PatternsOf(nots[0]));
  }

  lemma {:induction false} ExcludingMisuses(e: Var, x: Var, a: Bytes, b: Bytes)
    ensures Misused(Excluding(e, x, a, b), x)
  {
    var q, inner := Excluding(e, x, a, b), Pattern(EVar(e), EConst(VString(b)), EVar(x), EBlank);
    var w, body := q.where, [SPattern(inner)];
    assert NotsOf(w) == [body] by {
      SimplesSnoc([], w[0]);
      SimplesSnoc([w[0]], w[1]);
      assert [] + [w[0]] == [w[0]] && [w[0]] + [w[1]] == w;
    }
    assert PatternsOf(body) == [inner] by {
      PartsSnoc([], body[0]);
      assert [] + body == body;
    }
    OccursList(inner, x, ColV);
    hide NotsOf, PatternsOf, SimplesOf, ExprsOf, Occurs, InNegation;
    assert inner in [inner] && x in VarsOf([inner]);
    OneNegation(NotsOf(w), inner, x);
    assert x in q.ins;
  }

  /** The input is used in patterns only, and bound there; but the negation starts from its
      marker, so the query, whatever its argument, does not translate. */
  lemma {:induction false} InputInNegation(e: Var, x: Var, a: Bytes, b: Bytes, s: Schema, vs: seq<Value>, aq: Algebraic)
    requires var q := Excluding(e, x, a, b);
      e != x && IsAlgebraOf(q, s, aq) && Algebrize.Accepted(q, s) && BindAll(aq, q.ins, vs).Ok?
    ensures !Translate.Translatable(BindAll(aq, [x], vs).value)
  {
    var q := Excluding(e, x, a, b);
    ExcludingMisuses(e, x, a, b);
    assert Distinct(q.ins);
    hide Excluding, IsAlgebraOf, BindAll, Misused, Distinct, Algebrize.Accepted, Translate.Translatable;
    TranslatesExactly(q, s, vs, View(0, None), aq);
  }
}
