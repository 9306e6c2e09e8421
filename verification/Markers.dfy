/** Inputs that bindInputArgs misses. A variable of :in that also stands in a pattern is
    bound there, and its uses in filters keep the marker of no table; one that is used
    twice in filters is bound at its first use only; one in :find always keeps it, and so
    does one in a (not ...) body, whose correlation starts at the marker. */
module Markers {
  import opened Prelude
  import opened Values
  import opened Store
  import opened Sql
  import opened Datalog
  import opened Algebra
  import opened Places
  import opened Inputs

  /** The input stands in a pattern where bindInputArgs looks for it. */
  ghost predicate InPatterns(ps: seq<Pattern>, x: Var) {
    exists i :: 0 <= i < |ps| && HasInput(ps[i], x)
  }

  ghost predicate UsedTwice(xs: seq<Expr>, x: Var) {
    exists i, j, i', j' :: UsedAt(xs, x, i, j) && UsedAt(xs, x, i', j') && (i != i' || j != j')
  }

  predicate Before(i: int, j: int, i': int, j': int) { i < i' || (i == i' && j < j') }

  /** No use of the input comes before this one. */
  ghost predicate FirstUse(xs: seq<Expr>, x: Var, i: int, j: int) {
    UsedAt(xs, x, i, j) && forall i', j' :: UsedAt(xs, x, i', j') ==> !Before(i', j', i, j)
  }

  ghost predicate MarkerAt(fs: seq<Filter>, x: Var, i: int, j: int) {
    0 <= i < |fs| && 0 <= j < |fs[i].args| && IsInput(fs[i].args[j], x)
  }

  /** The use at (i, j) has not been bound. */
  ghost predicate StillMarked(ps: seq<Pattern>, xs: seq<Expr>, ins: set<Var>, bound: set<Var>, x: Var, i: int, j: int) {
    x in ins && UsedAt(xs, x, i, j) && !(x in bound && !InPatterns(ps, x) && FirstUse(xs, x, i, j))
  }

  /** The markers left once some inputs are bound. */
  ghost predicate Marks(ps: seq<Pattern>, xs: seq<Expr>, ins: set<Var>, bound: set<Var>, b: Body) {
    && |b.tables| == |ps| && (forall k :: 0 <= k < |ps| ==> b.tables[k].pattern == ps[k])
    && forall x, i, j :: MarkerAt(b.filters, x, i, j) <==> StillMarked(ps, xs, ins, bound, x, i, j)
  }

  /** Some negation is correlated with no table. */
  ghost predicate NotDangles(nots: seq<Body>) {
    exists i, j :: 0 <= i < |nots| && j in nots[i].joins && j.leftTable == -1
  }

  /** The algebraic form refers to a table that does not exist. */
  ghost predicate Dangles(aq: Algebraic) {
    || (exists x, i, j :: MarkerAt(aq.body.filters, x, i, j))
    || (exists m :: m in aq.find && m.table == -1)
    || NotDangles(aq.nots)
  }

  ghost predicate InNegation(nots: seq<seq<Simple>>, x: Var) {
    exists i :: 0 <= i < |nots| && x in VarsOf(PatternsOf(nots[i]))
  }

  /** An input among the results, in a negation, in a pattern and an expression, or in two
      expression positions. */
  ghost predicate Misused(q: Query, x: Var) {
    var ps, xs := PatternsOf(SimplesOf(q.where)), ExprsOf(SimplesOf(q.where));
    x in q.ins && (x in q.find || InNegation(NotsOf(q.where), x) || (UsedIn(xs, x) && InPatterns(ps, x))
                   || UsedTwice(xs, x))
  }

  lemma {:induction false} ResolvedMarks(ps: seq<Pattern>, types: map<Var, ValueType>, ins: set<Var>, xs: seq<Expr>,
                                         x: Var, i: int, j: int)
    ensures MarkerAt(ResolvedFilters(ps, types, ins, xs), x, i, j) <==> x in ins && UsedAt(xs, x, i, j)
  {
    if 0 <= i < |xs| && 0 <= j < |xs[i].args| {
      var args := ResolvedArgs(ps, types, ins, xs[i].args);
      ArgMark(LocsFrom(ps, VarName(xs[i].args[j])), ps, types, ins, xs[i].args[j], x);
      hide LocsFrom, ResolvedArg, InferredType;
      assert IsInput(Typed(args, InferredType(args))[j], x) <==> IsInput(args[j], x);
    }
  }

  lemma {:induction false} ArgMark(locs: seq<Loc>, ps: seq<Pattern>, types: map<Var, ValueType>, ins: set<Var>,
                                   el: Elem, x: Var)
    requires locs == LocsFrom(ps, VarName(el))
    ensures IsInput(ResolvedArg(locs, types, ins, el), x) <==> el == EVar(x) && x in ins
  {
    if el.EVar? && locs != [] {
      RealPlace(ps, el.x, locs[0]);
    }
    hide LocsFrom;
  }

  lemma {:induction false} RealPlace(ps: seq<Pattern>, x: Var, l: Loc)
    requires l in LocsFrom(ps, x)
    ensures l.table >= 0
  {
    var n := |ps| - 1;
    if l in LocsFrom(ps[..n], x) {
      RealPlace(ps[..n], x, l);
    }
  }

  /** The filter and argument that bindInputArgs finds hold the first use. */
  lemma {:induction false} FoundIsFirst(ps: seq<Pattern>, xs: seq<Expr>, ins: set<Var>, bound: set<Var>, b: Body,
                                        x: Var)
    requires Marks(ps, xs, ins, bound, b) && x !in bound && FilterWithInput(b.filters, x, 0).Some?
    ensures var i := FilterWithInput(b.filters, x, 0).value; var j := ArgWithInput(b.filters[i].args, x, 0).value;
            FirstUse(xs, x, i, j) && MarkerAt(b.filters, x, i, j)
  {
    var fs := b.filters;
    var i := FilterWithInput(fs, x, 0).value;
    var j := ArgWithInput(fs[i].args, x, 0).value;
    hide IsInput, FilterWithInput, ArgWithInput, InPatterns;
    assert MarkerAt(fs, x, i, j);
    assert StillMarked(ps, xs, ins, bound, x, i, j);
    forall i', j' | UsedAt(xs, x, i', j') ensures !Before(i', j', i, j) {
      assert StillMarked(ps, xs, ins, bound, x, i', j') && MarkerAt(fs, x, i', j');
    }
  }

  lemma {:induction false} NoPatternNoTable(ps: seq<Pattern>, tbs: seq<TableBinding>, x: Var)
    requires |tbs| == |ps| && forall k :: 0 <= k < |ps| ==> tbs[k].pattern == ps[k]
    ensures TableWithInput(tbs, x, 0).Some? <==> InPatterns(ps, x)
  {
    hide HasInput;
    var t := TableWithInput(tbs, x, 0);
    if t.Some? {
      assert HasInput(ps[t.value], x);
    } else {
      forall i | 0 <= i < |ps| ensures !HasInput(ps[i], x) {
        assert !HasInput(tbs[i].pattern, x);
      }
    }
  }

  lemma {:induction false} FirstIsOne(xs: seq<Expr>, x: Var, i: int, j: int, i': int, j': int)
    requires FirstUse(xs, x, i, j) && FirstUse(xs, x, i', j')
    ensures i == i' && j == j'
  {
  }

  lemma {:induction false} MarkReplaced(fs: seq<Filter>, i: int, j: int, a: FilterArg, x: Var, k: int, l: int)
    requires 0 <= i < |fs| && 0 <= j < |fs[i].args| && a.FConst?
    ensures MarkerAt(fs[i := fs[i].(args := fs[i].args[j := a])], x, k, l)
            <==> MarkerAt(fs, x, k, l) && !(k == i && l == j)
  {
  }

  lemma {:induction false} MarksStep(ps: seq<Pattern>, xs: seq<Expr>, ins: set<Var>, bound: set<Var>, b: Body, x: Var,
                                     v: Value)
    requires Marks(ps, xs, ins, bound, b) && x !in bound && BindInput(b, x, v).Ok?
    ensures Marks(ps, xs, ins, bound + {x}, BindInput(b, x, v).value)
  {
    var b' := BindInput(b, x, v).value;
    NoPatternNoTable(ps, b.tables, x);
    if InPatterns(ps, x) {
      hide InPatterns, FirstUse, MarkerAt, TableWithInput;
      forall y, i, j ensures MarkerAt(b'.filters, y, i, j) <==> StillMarked(ps, xs, ins, bound + {x}, y, i, j) {
        assert MarkerAt(b.filters, y, i, j) <==> StillMarked(ps, xs, ins, bound, y, i, j);
      }
    } else {
      FoundIsFirst(ps, xs, ins, bound, b, x);
      var f := FilterWithInput(b.filters, x, 0).value;
      var g := ArgWithInput(b.filters[f].args, x, 0).value;
      assert b'.filters == b.filters[f := b.filters[f].(args := b.filters[f].args[g := b'.filters[f].args[g]])]
        && b'.filters[f].args[g].FConst?;
      hide InPatterns, FirstUse, TableWithInput, FilterWithInput, ArgWithInput, FilterInput, BindInput;
      forall y, i, j ensures MarkerAt(b'.filters, y, i, j) <==> StillMarked(ps, xs, ins, bound + {x}, y, i, j) {
        assert MarkerAt(b.filters, y, i, j) <==> StillMarked(ps, xs, ins, bound, y, i, j);
        MarkReplaced(b.filters, f, g, b'.filters[f].args[g], y, i, j);
        OneMarker(b.filters, x, y, f, g);
        if y == x && FirstUse(xs, x, i, j) {
          FirstIsOne(xs, x, i, j, f, g);
        }
      }
    }
  }

  lemma {:induction false} OneMarker(fs: seq<Filter>, x: Var, y: Var, i: int, j: int)
    requires MarkerAt(fs, x, i, j)
    ensures MarkerAt(fs, y, i, j) <==> x == y
  {
  }

  lemma {:induction false} AllMarks(ps: seq<Pattern>, xs: seq<Expr>, ins: set<Var>, b: Body, zs: seq<Var>,
                                    vs: seq<Value>)
    requires Marks(ps, xs, ins, {}, b) && Distinct(zs) && |zs| <= |vs| && BindInputs(b, zs, vs).Ok?
    ensures Marks(ps, xs, ins, (set x | x in zs), BindInputs(b, zs, vs).value)
    decreases |zs|
  {
    hide Marks, BindInput;
    if zs == [] {
      assert (set x | x in zs) == {};
    } else {
      var n := |zs| - 1;
      AllMarks(ps, xs, ins, b, zs[..n], vs);
      assert zs == zs[..n] + [zs[n]];
      assert (set x | x in zs) == (set x | x in zs[..n]) + {zs[n]};
      MarksStep(ps, xs, ins, (set x | x in zs[..n]), BindInputs(b, zs[..n], vs).value, zs[n], vs[n]);
    }
  }

  lemma {:induction false} FirstUseExists(xs: seq<Expr>, x: Var, i: int, j: int) returns (k: int, l: int)
    requires UsedAt(xs, x, i, j)
    ensures FirstUse(xs, x, k, l)
    decreases i, j
  {
    if i', j' :| UsedAt(xs, x, i', j') && Before(i', j', i, j) {
      k, l := FirstUseExists(xs, x, i', j');
    } else {
      k, l := i, j;
    }
  }

  lemma {:induction false} NegationDangles(ps: seq<Pattern>, ins: set<Var>, s: Schema, body: seq<Simple>, b: Body)
    requires IsInner(ps, ins, s, body, b)
    ensures (exists j :: j in b.joins && j.leftTable == -1) <==> exists x :: x in ins && x in VarsOf(PatternsOf(body))
  {
    var qs := PatternsOf(body);
    hide PatternsOf, LocsFrom, VarsOf, TablesFor, InnerFilters, TypesFrom;
    forall j | j in b.joins ensures j.leftTable == -1 <==> j.x in ins && IsCorrelation(ps, ins, qs, j) {
      if IsStarJoin(qs, j) {
        RealPlace(qs, j.x, LocsFrom(qs, j.x)[0]);
      } else if j.x !in ins {
        RealPlace(ps, j.x, LocsFrom(ps, j.x)[0]);
      }
      if j.x in ins && IsCorrelation(ps, ins, qs, j) {
        assert j.leftTable == -1;
      }
    }
    if j :| j in b.joins && j.leftTable == -1 {
      PlacesOfVar(qs, j.x);
    }
    if x :| x in ins && x in VarsOf(qs) {
      PlacesOfVar(qs, x);
      var l := LocsFrom(qs, x)[0];
      assert IsCorrelation(ps, ins, qs, Join(x, -1, ColE, l.table, l.col));
    }
  }

  lemma {:induction false} NegationsDangle(ps: seq<Pattern>, ins: set<Var>, s: Schema, nots: seq<seq<Simple>>,
                                           bs: seq<Body>)
    requires |bs| == |nots| && forall i :: 0 <= i < |bs| ==> IsInner(ps, ins, s, nots[i], bs[i])
    ensures NotDangles(bs) <==> exists x :: x in ins && InNegation(nots, x)
  {
    hide IsInner, VarsOf, PatternsOf;
    forall i | 0 <= i < |bs|
      ensures (exists j :: j in bs[i].joins && j.leftTable == -1)
              <==> exists x :: x in ins && x in VarsOf(PatternsOf(nots[i]))
    {
      NegationDangles(ps, ins, s, nots[i], bs[i]);
    }
    if i, j :| 0 <= i < |bs| && j in bs[i].joins && j.leftTable == -1 {
      var x :| x in ins && x in VarsOf(PatternsOf(nots[i]));
      assert InNegation(nots, x);
    }
    if x :| x in ins && InNegation(nots, x) {
      var i :| 0 <= i < |nots| && x in VarsOf(PatternsOf(nots[i]));
      var j :| j in bs[i].joins && j.leftTable == -1;
    }
  }

  /** Binding leaves a reference to no table exactly when some input is misused. */
  lemma {:induction false} DanglesExactly(q: Query, s: Schema, aq: Algebraic, vs: seq<Value>)
    requires IsAlgebraOf(q, s, aq) && Distinct(q.ins) && BindAll(aq, q.ins, vs).Ok?
    requires forall x :: x in q.find && x !in q.ins ==> LocsFrom(PatternsOf(SimplesOf(q.where)), x) != []
    ensures Dangles(BindAll(aq, q.ins, vs).value) <==> exists x :: Misused(q, x)
  {
    var ps, xs, nots := PatternsOf(SimplesOf(q.where)), ExprsOf(SimplesOf(q.where)), NotsOf(q.where);
    var ins := set x | x in q.ins;
    var out := BindAll(aq, q.ins, vs).value;
    AlgebraMarks(q, s, aq);
    AllMarks(ps, xs, ins, aq.body, q.ins, vs);
    assert aq.nots == out.nots && aq.find == out.find;
    assert |aq.find| == |q.find| && |aq.nots| == |nots|;
    hide BindAll, BindInputs, IsStarJoin, IsInner, PatternsOf, ExprsOf, SimplesOf, NotsOf, ResolvedFilters, TypesFrom,
      ResolvedFind,
      MarkerAt, UsedAt, InPatterns, FirstUse, TablesFor, Marks, NotDangles, InNegation, UsedTwice;
    FindDangles(ps, TypesFrom(ps, s, map[]), ins, q.find, aq.find);
    FiltersDangle(ps, xs, ins, out.body);
    NegationsDangle(ps, ins, s, nots, aq.nots);
    MisusedSplits(q);
  }

  lemma {:induction false} MisusedSplits(q: Query)
    ensures var ps, xs, ins := PatternsOf(SimplesOf(q.where)), ExprsOf(SimplesOf(q.where)), set x | x in q.ins;
            (exists x :: Misused(q, x)) <==>
            || (exists x :: x in q.find && x in ins)
            || (exists x :: x in ins && InNegation(NotsOf(q.where), x))
            || (exists x :: x in ins && ((UsedIn(xs, x) && InPatterns(ps, x)) || UsedTwice(xs, x)))
  {
    var ps, xs, ins := PatternsOf(SimplesOf(q.where)), ExprsOf(SimplesOf(q.where)), set x | x in q.ins;
    hide PatternsOf, ExprsOf, SimplesOf, NotsOf, InNegation, UsedIn, InPatterns, UsedTwice;
    if x :| x in q.find && x in ins { assert Misused(q, x); }
    if x :| x in ins && InNegation(NotsOf(q.where), x) { assert Misused(q, x); }
    if x :| x in ins && ((UsedIn(xs, x) && InPatterns(ps, x)) || UsedTwice(xs, x)) { assert Misused(q, x); }
  }

  lemma {:induction false} AlgebraMarks(q: Query, s: Schema, aq: Algebraic)
    requires IsAlgebraOf(q, s, aq)
    ensures Marks(PatternsOf(SimplesOf(q.where)), ExprsOf(SimplesOf(q.where)), (set x | x in q.ins), {}, aq.body)
  {
    var ps, xs, ins := PatternsOf(SimplesOf(q.where)), ExprsOf(SimplesOf(q.where)), set x | x in q.ins;
    hide IsStarJoin, IsInner, ResolvedFind, PatternsOf, ExprsOf, SimplesOf, NotsOf, ResolvedFilters, TypesFrom,
      MarkerAt, UsedAt;
    forall x, i, j ensures MarkerAt(aq.body.filters, x, i, j) <==> StillMarked(ps, xs, ins, {}, x, i, j) {
      ResolvedMarks(ps, TypesFrom(ps, s, map[]), ins, xs, x, i, j);
    }
  }

  lemma {:induction false} FindDangles(ps: seq<Pattern>, types: map<Var, ValueType>, ins: set<Var>, find: seq<Var>,
                                       fs: seq<FindMapping>)
    requires |fs| == |find| && (forall i :: 0 <= i < |find| ==> fs[i] == ResolvedFind(ps, types, ins, find[i]))
    requires forall x :: x in find && x !in ins ==> LocsFrom(ps, x) != []
    ensures (exists m :: m in fs && m.table == -1) <==> exists x :: x in find && x in ins
  {
    forall i | 0 <= i < |find| ensures fs[i].table == -1 <==> find[i] in ins {
      assert find[i] in find;
      if find[i] !in ins {
        RealPlace(ps, find[i], LocsFrom(ps, find[i])[0]);
      }
      hide LocsFrom;
    }
    hide ResolvedFind, LocsFrom;
    if x :| x in find && x in ins {
      var i :| 0 <= i < |find| && find[i] == x;
      assert fs[i] in fs;
    }
  }

  lemma {:induction false} FiltersDangle(ps: seq<Pattern>, xs: seq<Expr>, ins: set<Var>, b: Body)
    requires Marks(ps, xs, ins, ins, b)
    ensures (exists x, i, j :: MarkerAt(b.filters, x, i, j))
            <==> exists x :: x in ins && ((UsedIn(xs, x) && InPatterns(ps, x)) || UsedTwice(xs, x))
  {
    hide MarkerAt, UsedAt, InPatterns;
    if x, i, j :| MarkerAt(b.filters, x, i, j) {
      assert StillMarked(ps, xs, ins, ins, x, i, j);
      if !InPatterns(ps, x) {
        var k, l := FirstUseExists(xs, x, i, j);
      }
    }
    if x :| x in ins && ((UsedIn(xs, x) && InPatterns(ps, x)) || UsedTwice(xs, x)) {
      if UsedIn(xs, x) && InPatterns(ps, x) {
        var i, j :| UsedAt(xs, x, i, j);
        assert StillMarked(ps, xs, ins, ins, x, i, j) && MarkerAt(b.filters, x, i, j);
      } else {
        var i, j, i', j' :| UsedAt(xs, x, i, j) && UsedAt(xs, x, i', j') && (i != i' || j != j');
        if FirstUse(xs, x, i, j) && FirstUse(xs, x, i', j') {
          FirstIsOne(xs, x, i, j, i', j');
        }
        assert StillMarked(ps, xs, ins, ins, x, i, j) || StillMarked(ps, xs, ins, ins, x, i', j');
        assert MarkerAt(b.filters, x, i, j) || MarkerAt(b.filters, x, i', j');
      }
    }
  }
}
