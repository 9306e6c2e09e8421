/** What the clauses of a rule ask of the datoms, position by position, and what rules of
    one pattern put into their tables. */
module RulePatterns {
  import opened Prelude
  import opened Rules
  import opened RuleMeaning
  import opened Fixpoint
  import opened SemiNaive
  import opened RulePlan
  import opened PlanRuns

  /** A constant is itself, a variable has its value, and a blank is anything. */
  predicate Fits(t: Term, sigma: Sigma, v: Val) {
    && (t.TConst? ==> v == t.c)
    && (t.TVar? ==> t.x in sigma && v == sigma[t.x])
  }

  /** A named attribute is its id, and a variable may stand for any attribute. */
  predicate AttrFits(a: AttrTerm, attrs: map<Bytes, Val>, sigma: Sigma, v: Val) {
    && !a.AOther?
    && (a.AIdent? ==> a.ident in attrs && v == attrs[a.ident])
    && (a.AVar? ==> a.x in sigma && v == sigma[a.x])
  }

  /** The datom has the attribute, and entity, value and transaction where they belong. */
  predicate DatomFits(c: BodyClause, attrs: map<Bytes, Val>, sigma: Sigma, d: Tuple)
    requires c.BPattern? && |d| == 4
  {
    Fits(c.e, sigma, d[0]) && AttrFits(c.a, attrs, sigma, d[1]) && Fits(c.v, sigma, d[2]) && Fits(c.tx, sigma, d[3])
  }

  lemma {:induction false} TermFits(t: Term, sigma: Sigma, v: Val)
    ensures TermIs(t, sigma, v) <==> Fits(t, sigma, v)
  {
  }

  lemma {:induction false} AttrTermFits(a: AttrTerm, attrs: map<Bytes, Val>, sigma: Sigma, v: Val)
    requires !a.AOther? && (a.AIdent? ==> a.ident in attrs)
    ensures TermIs(AttrAsTerm(a, attrs), sigma, v) <==> AttrFits(a, attrs, sigma, v)
  {
  }

  lemma {:induction false} DatomMatches(c: BodyClause, attrs: map<Bytes, Val>, sigma: Sigma, d: Tuple)
    requires c.BPattern? && |d| == 4 && !c.a.AOther? && (c.a.AIdent? ==> c.a.ident in attrs)
    ensures TermsAre(PatternTerms(c, attrs), sigma, d) <==> DatomFits(c, attrs, sigma, d)
  {
    var ts := PatternTerms(c, attrs);
    TermFits(c.e, sigma, d[0]);
    TermFits(c.v, sigma, d[2]);
    TermFits(c.tx, sigma, d[3]);
    AttrTermFits(c.a, attrs, sigma, d[1]);
    assert ts[0] == c.e && ts[1] == AttrAsTerm(c.a, attrs) && ts[2] == c.v && ts[3] == c.tx;
    hide TermIs, AttrAsTerm, Fits, AttrFits;
  }

  /** A pattern holds exactly when some datom fits it. */
  lemma {:induction false} PatternFinds(c: BodyClause, w: World, I: Interp, sigma: Sigma)
    requires c.BPattern? && !c.a.AOther? && (c.a.AIdent? ==> c.a.ident in w.attrs) && WorldFits(w)
    ensures ClauseHolds(c, w, I, sigma) <==> exists d :: d in w.datoms && |d| == 4 && DatomFits(c, w.attrs, sigma, d)
  {
    hide TermsAre, PatternTerms, DatomFits;
    forall d | d in w.datoms
      ensures |d| == 4 && (TermsAre(PatternTerms(c, w.attrs), sigma, d) <==> DatomFits(c, w.attrs, sigma, d))
    {
      DatomMatches(c, w.attrs, sigma, d);
    }
  }

  predicate TupleFits(ts: seq<Term>, sigma: Sigma, u: Tuple) {
    |u| == |ts| && forall k :: 0 <= k < |ts| ==> Fits(ts[k], sigma, u[k])
  }

  lemma {:induction false} TermsFit(ts: seq<Term>, sigma: Sigma, u: Tuple)
    ensures TermsAre(ts, sigma, u) <==> TupleFits(ts, sigma, u)
  {
    hide TermIs, Fits;
    if |u| == |ts| {
      forall k | 0 <= k < |ts| ensures TermIs(ts[k], sigma, u[k]) <==> Fits(ts[k], sigma, u[k]) {
        TermFits(ts[k], sigma, u[k]);
      }
    }
  }

  /** An application holds exactly when the name stands for a tuple that fits its arguments. */
  lemma {:induction false} ApplicationFinds(n: Name, args: seq<Term>, w: World, I: Interp, sigma: Sigma)
    ensures ClauseHolds(BApply(n, args), w, I, sigma) <==> exists u: Tuple :: I(n, u) && TupleFits(args, sigma, u)
  {
    hide TermsAre, TupleFits;
    forall u: Tuple ensures TermsAre(args, sigma, u) <==> TupleFits(args, sigma, u) {
      TermsFit(args, sigma, u);
    }
  }

  // ---------------------------------------------------------------------
  // Rules of one pattern
  // ---------------------------------------------------------------------

  /** Some datom fits the pattern under values that the tuple has in the head. */
  ghost predicate DatomGives(r: Rule, w: World, t: Tuple)
    requires |r.body| == 1 && r.body[0].BPattern?
  {
    exists d, sigma: Sigma ::
      d in w.datoms && |d| == 4 && DatomFits(r.body[0], w.attrs, sigma, d) && TupleFits(r.head, sigma, t)
  }

  lemma {:induction false} OnePatternDerives(r: Rule, w: World, I: Interp, t: Tuple)
    requires |r.body| == 1 && r.body[0].BPattern? && !r.body[0].a.AOther? && WorldFits(w)
    requires r.body[0].a.AIdent? ==> r.body[0].a.ident in w.attrs
    ensures Derives(r, w, I, t) <==> DatomGives(r, w, t)
  {
    var c := r.body[0];
    hide ClauseHolds, DatomFits, TermsAre, TupleFits, WorldFits;
    forall sigma: Sigma
      ensures BodyHolds(r.body, w, I, sigma)
              <==> exists d :: d in w.datoms && |d| == 4 && DatomFits(c, w.attrs, sigma, d)
    {
      PatternFinds(c, w, I, sigma);
      assert c in r.body && forall c' :: c' in r.body ==> c' == c;
    }
    forall sigma: Sigma ensures TermsAre(r.head, sigma, t) <==> TupleFits(r.head, sigma, t) {
      TermsFit(r.head, sigma, t);
    }
    hide BodyHolds;
  }

  /** The statement of a rule of one pattern, with its head's constants first among its
      parameters, inserts a tuple exactly when some datom of the pattern gives it. */
  lemma {:induction false} OnePatternInserts(r: Rule, w: World, arity: map<Name, nat>, rule: Tables, delta: Tables,
                                             useDelta: set<Name>, t: Tuple)
    requires |r.body| == 1 && r.body[0].BPattern?
    requires RuleAccepted(r, w.attrs, arity) && Aligned(r, w.attrs) && WorldFits(w) && TablesFit(rule, arity)
             && TablesFit(delta, arity)
    ensures !r.body[0].a.AOther? && (r.body[0].a.AIdent? ==> r.body[0].a.ident in w.attrs)
    ensures Inserts(Emitted(r, w.attrs, useDelta), w, rule, delta, t) <==> DatomGives(r, w, t)
  {
    assert ClauseAccepted(r.body[0], w.attrs, arity, TrackOf(Items(r.body[..0], w.attrs)).first);
    hide Inserts, Emitted, Derives, DatomGives, Aligned, RuleAccepted, TablesFit;
    StatementIsRule(r, w, arity, rule, delta, useDelta, t);
    OnePatternDerives(r, w, Reading(rule, delta, useDelta), t);
  }

  // ---------------------------------------------------------------------
  // (name ?x ?y) [?x :attr ?y]
  // ---------------------------------------------------------------------

  function Linked(n: Name, x: RVar, y: RVar, i: Bytes): Rule {
    Rule(n, [TVar(x), TVar(y)], [BPattern(TVar(x), AIdent(i), TVar(y), TBlank)])
  }

  /** The entity and the value of some datom of the attribute. */
  ghost predicate LinkOf(w: World, i: Bytes, t: Tuple) {
    i in w.attrs && exists d :: d in w.datoms && |d| == 4 && d[1] == w.attrs[i] && t == [d[0], d[2]]
  }

  lemma {:induction false} LinkedGives(n: Name, x: RVar, y: RVar, i: Bytes, w: World, t: Tuple)
    requires x != y && i in w.attrs
    ensures DatomGives(Linked(n, x, y, i), w, t) <==> LinkOf(w, i, t)
  {
    var r := Linked(n, x, y, i);
    if DatomGives(r, w, t) {
      var d, sigma: Sigma :| d in w.datoms && |d| == 4 && DatomFits(r.body[0], w.attrs, sigma, d)
        && TupleFits(r.head, sigma, t);
      assert Fits(r.head[0], sigma, t[0]) && Fits(r.head[1], sigma, t[1]);
      assert t == [d[0], d[2]];
    }
    if LinkOf(w, i, t) {
      var d :| d in w.datoms && |d| == 4 && d[1] == w.attrs[i] && t == [d[0], d[2]];
      var sigma: Sigma := map[x := d[0], y := d[2]];
      assert DatomFits(r.body[0], w.attrs, sigma, d) && TupleFits(r.head, sigma, t);
    }
  }

  lemma {:induction false} LinkedItems(n: Name, x: RVar, y: RVar, i: Bytes, attrs: map<Bytes, Val>)
    requires i in attrs
    ensures Items(Linked(n, x, y, i).body, attrs) == [ICell(TConst(attrs[i]), Ref(0, 1)), ICell(TVar(x), Ref(0, 0)),
                                                      ICell(TVar(y), Ref(0, 2)), ICell(TBlank, Ref(0, 3))]
  {
    var c := Linked(n, x, y, i).body[0];
    assert [c][..0] == [] && Froms([], {}) == [];
  }

  lemma {:induction false} LinkedTrack(n: Name, x: RVar, y: RVar, i: Bytes, attrs: map<Bytes, Val>)
    requires x != y && i in attrs
    ensures var tr := TrackOf(Items(Linked(n, x, y, i).body, attrs));
            && tr.first == map[x := Ref(0, 0), y := Ref(0, 2)] && |tr.params| == 1
  {
    LinkedItems(n, x, y, i, attrs);
    hide Items, Linked, TrackOf;
    FourTracked(ICell(TConst(attrs[i]), Ref(0, 1)), ICell(TVar(x), Ref(0, 0)), ICell(TVar(y), Ref(0, 2)),
                ICell(TBlank, Ref(0, 3)));
  }

  lemma {:induction false} FourTracked(i0: Item, i1: Item, i2: Item, i3: Item)
    ensures TrackOf([i0, i1, i2, i3]) == Tracked(Tracked(Tracked(Tracked(NOTHING, i0), i1), i2), i3)
  {
    hide TrackOf, Tracked;
    NothingTracked();
    TrackSnoc([], i0);
    TrackSnoc([i0], i1);
    TrackSnoc([i0, i1], i2);
    TrackSnoc([i0, i1, i2], i3);
    assert [] + [i0] == [i0] && [i0] + [i1] == [i0, i1] && [i0, i1] + [i2] == [i0, i1, i2];
    assert [i0, i1, i2] + [i3] == [i0, i1, i2, i3];
  }

  lemma {:induction false} NothingTracked()
    ensures TrackOf([]) == NOTHING
  {
  }

  /** Such a rule is accepted exactly when its attribute is known. */
  lemma {:induction false} LinkedAccepted(n: Name, x: RVar, y: RVar, i: Bytes, attrs: map<Bytes, Val>,
                                          arity: map<Name, nat>)
    requires x != y
    ensures RuleAccepted(Linked(n, x, y, i), attrs, arity) <==> i in attrs
    ensures i in attrs ==> Aligned(Linked(n, x, y, i), attrs)
  {
    var r := Linked(n, x, y, i);
    hide TrackOf, Items;
    assert BodyAccepted(r.body, attrs, arity)
      <==> ClauseAccepted(r.body[0], attrs, arity, TrackOf(Items(r.body[..0], attrs)).first);
    if i in attrs {
      LinkedTrack(n, x, y, i, attrs);
      assert ExprParams(r.head) == [] by {
        assert r.head[1..] == [TVar(y)] && [TVar(y)][1..] == [];
        assert ExprParams([TVar(y)]) == [];
      }
      var ps := TrackOf(Items(r.body, attrs)).params;
      assert ps + [] == [] + ps;
    }
  }

  lemma {:induction false} LinkedPlannable(n: Name, x: RVar, y: RVar, i: Bytes, attrs: map<Bytes, Val>)
    requires x != y
    ensures Plannable([Linked(n, x, y, i)], attrs) <==> i in attrs
    ensures i in attrs ==> AllAligned([Linked(n, x, y, i)], attrs)
  {
    var r := Linked(n, x, y, i);
    hide RuleAccepted, Aligned, Linked;
    LinkedAccepted(n, x, y, i, attrs, ArityOf([r]));
    assert r in [r];
    assert ArityOf([r])[r.name] == |r.head| && r.name in ArityOf([r]) by { assert [r][..0] == []; }
  }

  /** Planned and run from empty tables, the rule's table holds exactly the entities and
      values of the datoms of its attribute. */
  lemma {:induction false} LinkedRuns(n: Name, x: RVar, y: RVar, i: Bytes, plan: Plan, w: World, states: seq<Derived>,
                                      t: Tuple)
    requires x != y && i in w.attrs && WorldFits(w)
    requires IsPlan(plan, [Linked(n, x, y, i)], w.attrs) && Passes(plan.base, w, states) && Empty(states[0])
    ensures t in TuplesOf(states[|plan.base|].rule, n) <==> LinkOf(w, i, t)
  {
    var r := Linked(n, x, y, i);
    LinkedPlannable(n, x, y, i, w.attrs);
    BaseAlone(r, w, t);
    hide *;
    PlannedIsReady(plan, [r], w);
    BaseRuns(plan, [r], w, ArityOf([r]), states);
    LinkedIs(n, x, y, i);
    OnePatternDerives(r, w, FactsInterp({}), t);
    LinkedGives(n, x, y, i, w, t);
  }

  lemma {:induction false} LinkedIs(n: Name, x: RVar, y: RVar, i: Bytes)
    ensures var r := Linked(n, x, y, i);
            r.name == n && |r.body| == 1 && r.body[0].BPattern? && r.body[0].a == AIdent(i)
  {
  }

  lemma {:induction false} BaseAlone(r: Rule, w: World, t: Tuple)
    requires |r.body| == 1 && r.body[0].BPattern?
    ensures FoundAtFirst([r], w, (r.name, t)) <==> Derives(r, w, FactsInterp({}), t)
  {
    hide Derives;
    assert r in [r] && BaseRule(r);
  }
}
