/** The plan can be run: whatever statement comes next, there is a state of the temporary
    tables after it, because what the statements insert lies in a finite set. */
module PlanExecutes {
  import opened Prelude
  import opened Rules
  import opened RuleMeaning
  import opened Fixpoint
  import opened SemiNaive
  import opened RulePlan
  import opened PlanRuns

  /** The values of all datoms and the constants of all heads. */
  function ActiveDomain(rules: seq<Rule>, w: World): set<Val> {
    (set d, i | d in w.datoms && 0 <= i < |d| :: d[i])
    + (set r, k | r in rules && 0 <= k < |r.head| && r.head[k].TConst? :: r.head[k].c)
  }

  lemma {:induction false} DomainCovers(rules: seq<Rule>, w: World)
    ensures Covers(ActiveDomain(rules, w), rules, w)
  {
    var dom := ActiveDomain(rules, w);
    forall r, c | r in rules && TConst(c) in r.head ensures c in dom {
      var k :| 0 <= k < |r.head| && r.head[k] == TConst(c);
      assert r.head[k].TConst? && r.head[k].c == c;
    }
  }

  /** Every tuple of the least model is a tuple over the active domain. */
  lemma {:induction false} LeastIsFinite(rules: seq<Rule>, w: World, arity: map<Name, nat>, n: Name, t: Tuple)
    requires RulesAccepted(rules, w.attrs, arity) && Least(rules, w, n, t)
    ensures (n, t) in Universe(ActiveDomain(rules, w), arity)
  {
    var U := Universe(ActiveDomain(rules, w), arity);
    hide RulesAccepted, Universe, ActiveDomain, Covers, IsModel, Least;
    DomainCovers(rules, w);
    UniverseBounds(rules, w, arity, ActiveDomain(rules, w));
    assert IsModel(rules, w, FactsInterp(U));
    LeastIsLeast(rules, w, FactsInterp(U));
    assert FactsInterp(U)(n, t);
  }

  /** The tuples of the universe that the statement inserts. */
  ghost function Inserted(st: Stmt, w: World, a: Derived, U: Facts): set<Tuple> {
    set f | f in U && f.0 == st.into && Inserts(st, w, a.rule, a.delta, f.1) :: f.1
  }

  lemma {:induction false} InsertedIs(rules: seq<Rule>, w: World, arity: map<Name, nat>, st: Stmt, a: Derived, t: Tuple)
    requires RulesAccepted(rules, w.attrs, arity) && AllAligned(rules, w.attrs) && WorldFits(w)
    requires EmittedFor(Insert(st), rules, w.attrs) && Sound(rules, w, arity, a)
    ensures t in Inserted(st, w, a, Universe(ActiveDomain(rules, w), arity)) <==> Inserts(st, w, a.rule, a.delta, t)
  {
    var U := Universe(ActiveDomain(rules, w), arity);
    hide Universe, ActiveDomain, Inserts, RulesAccepted, AllAligned, WorldFits, Sound, Emitted;
    if Inserts(st, w, a.rule, a.delta, t) {
      var r, d :| r in rules && st == Emitted(r, w.attrs, d);
      InsertIsSound(rules, w, arity, a, r, d, t);
      IntoIs(r, w.attrs, d);
      LeastIsFinite(rules, w, arity, r.name, t);
      assert (st.into, t) in U && (st.into, t).0 == st.into && (st.into, t).1 == t;
    }
  }

  /** The tables after one statement. */
  ghost function After(p: PlanStmt, w: World, a: Derived, U: Facts): Derived {
    match p
    case Insert(st) => a.(rule := a.rule[st.into := TuplesOf(a.rule, st.into) + Inserted(st, w, a, U)])
    case Seed(n) => a.(delta := a.delta[n := TuplesOf(a.delta, n) + TuplesOf(a.rule, n)])
    case Clear(n) => a.(delta := a.delta[n := {}])
  }

  lemma {:induction false} AfterExecutes(rules: seq<Rule>, w: World, arity: map<Name, nat>, p: PlanStmt, a: Derived)
    requires RulesAccepted(rules, w.attrs, arity) && AllAligned(rules, w.attrs) && WorldFits(w)
    requires EmittedFor(p, rules, w.attrs) && Sound(rules, w, arity, a)
    ensures Executes(p, w, a, After(p, w, a, Universe(ActiveDomain(rules, w), arity)))
  {
    var U := Universe(ActiveDomain(rules, w), arity);
    hide Universe, ActiveDomain, Inserts, RulesAccepted, AllAligned, WorldFits, Sound, Inserted, Emitted;
    if p.Insert? {
      forall t ensures t in Inserted(p.s, w, a, U) <==> Inserts(p.s, w, a.rule, a.delta, t) {
        InsertedIs(rules, w, arity, p.s, a, t);
      }
    }
  }

  /** From any sound state any statements emitted for the rules can be run, and they leave
      sound states. */
  lemma {:induction false} StatementsRun(rules: seq<Rule>, w: World, arity: map<Name, nat>, ps: seq<PlanStmt>,
                                         a: Derived)
                                         returns (states: seq<Derived>)
    requires RulesAccepted(rules, w.attrs, arity) && AllAligned(rules, w.attrs) && WorldFits(w)
    requires (forall p :: p in ps ==> EmittedFor(p, rules, w.attrs)) && Sound(rules, w, arity, a)
    ensures Passes(ps, w, states) && states[0] == a && Sound(rules, w, arity, states[|ps|])
  {
    hide RulesAccepted, AllAligned, WorldFits, Sound, Executes, EmittedFor;
    if ps == [] {
      states := [a];
    } else {
      var n, U := |ps| - 1, Universe(ActiveDomain(rules, w), arity);
      hide After, Universe, ActiveDomain;
      var before := StatementsRun(rules, w, arity, ps[..n], a);
      AfterExecutes(rules, w, arity, ps[n], before[n]);
      var b := After(ps[n], w, before[n], U);
      StatementKeepsSound(rules, w, arity, ps[n], before[n], b);
      states := before + [b];
      forall i | 0 <= i < |ps| ensures Executes(ps[i], w, states[i], states[i + 1]) {
        if i < n {
          assert ps[i] == ps[..n][i] && states[i] == before[i] && states[i + 1] == before[i + 1];
        }
      }
    }
  }

  /** Every plan can be run from empty tables, with any number of iterations. */
  lemma {:induction false} PlansRun(plan: Plan, rules: seq<Rule>, w: World, arity: map<Name, nat>, k: nat)
                                    returns (first: seq<Derived>, then_: seq<Derived>)
    requires Ready(plan, rules, w, arity)
    ensures Passes(plan.base, w, first) && Empty(first[0])
    ensures Passes(Repeat(plan.clears + plan.variants, k), w, then_) && then_[0] == first[|first| - 1]
  {
    var start, round := Derived(map[], map[]), plan.clears + plan.variants;
    assert Empty(start);
    EmptyIsSound(rules, w, arity, start);
    PlansAreRounds(plan, rules, w.attrs);
    hide RulesAccepted, AllAligned, WorldFits, Sound, Executes, EmittedFor, IsPlan, Empty, DeltaRound, NamesOf, Repeat;
    first := StatementsRun(rules, w, arity, plan.base, start);
    RepeatedIn(round, k);
    assert |first| - 1 == |plan.base|;
    then_ := StatementsRun(rules, w, arity, Repeat(round, k), first[|plan.base|]);
  }
}
