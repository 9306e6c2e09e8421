/** Which queries Algebrize accepts, by what stands where in the query. */
module Acceptance {
  import opened Prelude
  import opened Store
  import opened Values
  import opened Datalog
  import opened Algebra
  import opened Algebrize

  /** The variable stands in some position of the pattern. */
  predicate StandsIn(p: Pattern, x: Var) {
    p.e == EVar(x) || p.a == EVar(x) || p.v == EVar(x) || p.tx == EVar(x)
  }

  ghost predicate StandsInSome(ps: seq<Pattern>, x: Var) {
    exists p :: p in ps && StandsIn(p, x)
  }

  lemma {:induction false} PlacesOf(i: int, p: Pattern, x: Var)
    ensures PatLocs(i, p, x) != [] <==> StandsIn(p, x)
  {
  }

  lemma {:induction false} PlacesFrom(ps: seq<Pattern>, x: Var)
    ensures LocsFrom(ps, x) != [] <==> StandsInSome(ps, x)
  {
    hide PatLocs, StandsIn;
    if ps != [] {
      var n := |ps| - 1;
      PlacesFrom(ps[..n], x);
      PlacesOf(n, ps[n], x);
      assert forall p :: p in ps <==> p in ps[..n] || p == ps[n];
    }
  }

  /** A pattern names no attribute, or a known one. */
  predicate AttributeKnown(p: Pattern, s: Schema) {
    p.a.EConst? && p.a.c != VNil ==> p.a.c.VString? && p.a.c.s in s.byIdent
  }

  /** Every variable of an expression stands in one of the patterns, or is an input. */
  ghost predicate VarsKnown(x: Expr, ps: seq<Pattern>, ins: seq<Var>) {
    forall y :: EVar(y) in x.args ==> y in ins || StandsInSome(ps, y)
  }

  /** Inside a negation: stands in a pattern before the expression. */
  ghost predicate NegationKnown(body: seq<Simple>, s: Schema) {
    && (forall p :: SPattern(p) in body ==> AttributeKnown(p, s))
    && (forall n :: 0 <= n < |body| && body[n].SExpr? ==> VarsKnown(body[n].x, PatternsOf(body[..n]), []))
  }

  lemma {:induction false} KnownVars(x: Expr, ps: seq<Pattern>, ins: seq<Var>)
    ensures ExprResolves((set y | y in ins), ps, x) <==> VarsKnown(x, ps, ins)
  {
    hide LocsFrom, StandsInSome;
    forall y ensures LocsFrom(ps, y) != [] <==> StandsInSome(ps, y) {
      PlacesFrom(ps, y);
    }
    forall el | el in x.args && el.EVar? ensures EVar(el.x) in x.args {
    }
  }

  lemma {:induction false} KnownAttribute(p: Pattern, s: Schema)
    ensures PatternError(p, s).None? <==> AttributeKnown(p, s)
  {
  }

  lemma {:induction false} KnownNegation(body: seq<Simple>, s: Schema)
    ensures BodyAccepted(body, s) <==> NegationKnown(body, s)
  {
    hide PatternError, AttributeKnown, ExprResolves, VarsKnown, PatternsOf;
    forall p ensures PatternError(p, s).None? <==> AttributeKnown(p, s) {
      KnownAttribute(p, s);
    }
    forall n | 0 <= n < |body| && body[n].SExpr?
      ensures ExprResolves({}, PatternsOf(body[..n]), body[n].x) <==> VarsKnown(body[n].x, PatternsOf(body[..n]), [])
    {
      KnownVars(body[n].x, PatternsOf(body[..n]), []);
      assert (set y: Var | y in []) == {};
    }
    forall c | c in body && c.SPattern? ensures SPattern(c.p) in body {
    }
  }

  /** A query is accepted exactly when its patterns name known attributes, and each variable
      of its expressions and its :find clause is an input or stands in a pattern outside
      negations; in a negation, in a pattern before the expression. */
  lemma {:induction false} AcceptedExactly(q: Query, s: Schema)
    ensures var ps := PatternsOf(SimplesOf(q.where));
            Accepted(q, s) <==>
            && (forall p :: p in ps ==> AttributeKnown(p, s))
            && (forall x :: x in ExprsOf(SimplesOf(q.where)) ==> VarsKnown(x, ps, q.ins))
            && (forall n :: n in NotsOf(q.where) ==> NegationKnown(n, s))
            && (forall y :: y in q.find ==> y in q.ins || StandsInSome(ps, y))
  {
    var ps, ins := PatternsOf(SimplesOf(q.where)), set y | y in q.ins;
    hide PatternError, AttributeKnown, ExprResolves, VarsKnown, PatternsOf, SimplesOf, ExprsOf, NotsOf, BodyAccepted,
         NegationKnown, LocsFrom, StandsInSome;
    forall p ensures PatternError(p, s).None? <==> AttributeKnown(p, s) {
      KnownAttribute(p, s);
    }
    forall x ensures ExprResolves(ins, ps, x) <==> VarsKnown(x, ps, q.ins) {
      KnownVars(x, ps, q.ins);
    }
    forall n ensures BodyAccepted(n, s) <==> NegationKnown(n, s) {
      KnownNegation(n, s);
    }
    forall y ensures LocsFrom(ps, y) != [] <==> StandsInSome(ps, y) {
      PlacesFrom(ps, y);
    }
    assert ins == set x | x in q.ins;
    assert Accepted(q, s)
      <==> (forall p :: p in ps ==> PatternError(p, s).None?)
           && (forall x :: x in ExprsOf(SimplesOf(q.where)) ==> ExprResolves(ins, ps, x))
           && (forall n :: n in NotsOf(q.where) ==> BodyAccepted(n, s))
           && (forall x :: x in q.find ==> x in ins || LocsFrom(ps, x) != []);
  }
}
