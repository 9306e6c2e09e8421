/** What the emitted plan does when it is run: from empty temporary tables, BaseSQL once and
    then any number of iterations; and what its variants would find if the deltas were
    refilled (query/recursive.go:96-136). */
module PlanRuns {
  import opened Prelude
  import opened Rules
  import opened RuleMeaning
  import opened Fixpoint
  import opened SemiNaive
  import opened RulePlan

  // ---------------------------------------------------------------------
  // Tables that hold facts
  // ---------------------------------------------------------------------

  ghost predicate Hold(t: Tables, F: Facts) {
    forall n, u :: u in TuplesOf(t, n) <==> (n, u) in F
  }

  ghost predicate Ready(plan: Plan, rules: seq<Rule>, w: World, arity: map<Name, nat>) {
    && IsPlan(plan, rules, w.attrs) && RulesAccepted(rules, w.attrs, arity) && AllAligned(rules, w.attrs)
       && WorldFits(w)
    && arity.Keys == NamesOf(rules)
  }

  lemma {:induction false} SameReading(rule: Tables, delta: Tables, F: Facts, D: Facts, r: Rule, w: World,
                                       d: set<Name>, t: Tuple)
    requires Hold(rule, F) && Hold(delta, D)
    ensures Derives(r, w, Reading(rule, delta, d), t) <==> Derives(r, w, ReadingFacts(F, D, d), t)
  {
    var I, J := Reading(rule, delta, d), ReadingFacts(F, D, d);
    assert Included(I, J) && Included(J, I);
    hide Derives;
    if Derives(r, w, I, t) {
      DerivesMonotone(r, w, I, J, t);
    }
    if Derives(r, w, J, t) {
      DerivesMonotone(r, w, J, I, t);
    }
  }

  lemma {:induction false} AppliedNames(rules: seq<Rule>, attrs: map<Bytes, Val>, arity: map<Name, nat>, r: Rule,
                                        m: Name)
    requires RulesAccepted(rules, attrs, arity) && r in rules && AppliesRule(r.body, m)
    ensures m in arity
  {
    AcceptedShaped(r.body, attrs, arity);
    var c :| c in r.body && c.BApply? && c.name == m;
    assert ClauseShaped(c, arity);
  }

  // ---------------------------------------------------------------------
  // Refilled deltas
  // ---------------------------------------------------------------------

  ghost predicate InsertsFact(ps: seq<PlanStmt>, w: World, rule: Tables, delta: Tables, f: (Name, Tuple)) {
    exists p :: p in ps && p.Insert? && p.s.into == f.0 && Inserts(p.s, w, rule, delta, f.1)
  }

  /** With the new facts in the deltas and all facts in the derived tables, the emitted
      variants insert exactly what a round of the semi-naive loop finds. */
  lemma {:induction false} VariantsFindExactly(plan: Plan, rules: seq<Rule>, w: World, arity: map<Name, nat>,
                                               rule: Tables, delta: Tables,
                                               F: Facts, D: Facts, f: (Name, Tuple))
    requires Ready(plan, rules, w, arity) && Hold(rule, F) && Hold(delta, D) && TablesFit(rule, arity)
             && TablesFit(delta, arity)
    ensures InsertsFact(plan.variants, w, rule, delta, f) <==> Found(rules, w, F, D, f)
  {
    hide Ready, Hold, Inserts, Derives, Emitted, AppliesRule, NamesOf, TablesFit, WorldFits, IsPlan, RulesAccepted,
      AllAligned;
    ReadyParts(plan, rules, w, arity);
    if InsertsFact(plan.variants, w, rule, delta, f) {
      var p :| p in plan.variants && p.Insert? && p.s.into == f.0 && Inserts(p.s, w, rule, delta, f.1);
      var r, m := VariantIs(plan, rules, w, arity, p);
      VariantInserts(rules, w, arity, rule, delta, F, D, r, m, f.1);
      assert Found(rules, w, F, D, f);
    }
    if Found(rules, w, F, D, f) {
      var r, m :| r in rules && r.name == f.0 && AppliesRule(r.body, m) && Derives(r, w, ReadingFacts(F, D, {m}), f.1);
      VariantInserts(rules, w, arity, rule, delta, F, D, r, m, f.1);
      VariantIn(plan, rules, w, arity, r, m);
    }
  }

  lemma {:induction false} VariantInserts(rules: seq<Rule>, w: World, arity: map<Name, nat>, rule: Tables,
                                          delta: Tables, F: Facts, D: Facts,
                                          r: Rule, m: Name, t: Tuple)
    requires RulesAccepted(rules, w.attrs, arity) && AllAligned(rules, w.attrs) && WorldFits(w) && r in rules
    requires Hold(rule, F) && Hold(delta, D) && TablesFit(rule, arity) && TablesFit(delta, arity)
    ensures Inserts(Emitted(r, w.attrs, {m}), w, rule, delta, t) <==> Derives(r, w, ReadingFacts(F, D, {m}), t)
    ensures Emitted(r, w.attrs, {m}).into == r.name
  {
    assert RuleAccepted(r, w.attrs, arity) && Aligned(r, w.attrs);
    hide *;
    StatementIsRule(r, w, arity, rule, delta, {m}, t);
    SameReading(rule, delta, F, D, r, w, {m}, t);
    IntoIs(r, w.attrs, {m});
  }

  lemma {:induction false} VariantIs(plan: Plan, rules: seq<Rule>, w: World, arity: map<Name, nat>, p: PlanStmt)
                                     returns (r: Rule, m: Name)
    requires Ready(plan, rules, w, arity) && p in plan.variants
    ensures r in rules && AppliesRule(r.body, m) && p == Insert(Emitted(r, w.attrs, {m}))
  {
    hide Emitted, AppliesRule, NamesOf, BaseRules, BaseInserts;
    r :| r in rules && VariantOf(p, r, NamesOf(rules), w.attrs);
    m :| m in NamesOf(rules) && AppliesRule(r.body, m) && p == Insert(Emitted(r, w.attrs, {m}));
  }

  lemma {:induction false} VariantIn(plan: Plan, rules: seq<Rule>, w: World, arity: map<Name, nat>, r: Rule, m: Name)
    requires Ready(plan, rules, w, arity) && r in rules && AppliesRule(r.body, m)
    ensures Insert(Emitted(r, w.attrs, {m})) in plan.variants
  {
    AppliedNames(rules, w.attrs, arity, r, m);
    hide Emitted, AppliesRule, NamesOf, BaseRules, BaseInserts;
    assert VariantOf(Insert(Emitted(r, w.attrs, {m})), r, NamesOf(rules), w.attrs);
  }

  // ---------------------------------------------------------------------
  // The plan as emitted
  // ---------------------------------------------------------------------

  lemma {:induction false} BaseIgnoresTables(r: Rule, w: World, I: Interp, J: Interp, t: Tuple)
    requires BaseRule(r) && Derives(r, w, I, t)
    ensures Derives(r, w, J, t)
  {
    hide TermsAre, PatternTerms, ArgsOf;
    var sigma: Sigma :| BodyHolds(r.body, w, I, sigma) && TermsAre(r.head, sigma, t);
    forall c | c in r.body ensures ClauseHolds(c, w, J, sigma) {
      assert ClauseHolds(c, w, I, sigma) && !AppliesRule(r.body, if c.BApply? then c.name else []);
    }
    assert BodyHolds(r.body, w, J, sigma);
  }

  lemma {:induction false} BaseRulesAre(rules: seq<Rule>, names: set<Name>, all: seq<Rule>, attrs: map<Bytes, Val>,
                                        arity: map<Name, nat>, r: Rule)
    requires RulesAccepted(all, attrs, arity) && arity.Keys == names && forall q :: q in rules ==> q in all
    ensures r in BaseRules(rules, names) <==> r in rules && BaseRule(r)
  {
    if rules != [] {
      var n := |rules| - 1;
      hide RulesAccepted, IsRecursive, BaseRule;
      assert rules == rules[..n] + [rules[n]];
      BaseRulesAre(rules[..n], names, all, attrs, arity, r);
      var last := rules[n];
      RecursiveIs(all, attrs, arity, last);
    }
  }

  lemma {:induction false} RecursiveIs(rules: seq<Rule>, attrs: map<Bytes, Val>, arity: map<Name, nat>, r: Rule)
    requires RulesAccepted(rules, attrs, arity) && r in rules
    ensures IsRecursive(r, arity.Keys) <==> !BaseRule(r)
  {
    hide RulesAccepted;
    if IsRecursive(r, arity.Keys) {
      var c :| c in r.body && c.BApply? && c.name in arity.Keys;
      assert AppliesRule(r.body, c.name);
    }
    if m :| AppliesRule(r.body, m) {
      AppliedNames(rules, attrs, arity, r, m);
    }
  }

  lemma {:induction false} InsertsNth(rules: seq<Rule>, attrs: map<Bytes, Val>)
    ensures var ps := BaseInserts(rules, attrs);
            |ps| == |rules| && forall i :: 0 <= i < |rules| ==> ps[i] == Insert(Emitted(rules[i], attrs, {}))
  {
    hide Emitted;
    if rules != [] {
      InsertsNth(rules[..|rules| - 1], attrs);
    }
  }

  ghost predicate Empty(st: Derived) {
    forall n, t :: t !in TuplesOf(st.rule, n) && t !in TuplesOf(st.delta, n)
  }

  lemma {:induction false} EmptyIsSound(rules: seq<Rule>, w: World, arity: map<Name, nat>, st: Derived)
    requires Empty(st)
    ensures Sound(rules, w, arity, st)
  {
    hide Least;
  }

  /** After the first i base inserts. */
  lemma {:induction false} BaseStates(rules: seq<Rule>, w: World, arity: map<Name, nat>, base: seq<Rule>,
                                      ps: seq<PlanStmt>, states: seq<Derived>, i: nat)
    requires RulesAccepted(rules, w.attrs, arity) && AllAligned(rules, w.attrs) && WorldFits(w)
    requires (forall p :: p in ps ==> EmittedFor(p, rules, w.attrs)) && Passes(ps, w, states) && Empty(states[0])
    requires |base| <= |ps| && i <= |base|
             && forall k :: 0 <= k < |base|
                  ==> ps[k] == Insert(Emitted(base[k], w.attrs, {})) && base[k] in rules && BaseRule(base[k])
    ensures forall n, t :: t in TuplesOf(states[i].rule, n) <==> FoundAtFirst(base[..i], w, (n, t))
  {
    hide TuplesOf, Emitted, EmittedFor, Derives, BaseRule, RulesAccepted, AllAligned, WorldFits, Inserts, Sound;
    if i == 0 {
      assert base[..0] == [];
    } else {
      var m := i - 1;
      BaseStates(rules, w, arity, base, ps, states, m);
      EmptyIsSound(rules, w, arity, states[0]);
      SoundAsEmitted(rules, w, arity, ps, states, m);
      var r := base[m];
      assert Executes(ps[m], w, states[m], states[m + 1]);
      assert base[..i] == base[..m] + [r];
      forall n, t ensures t in TuplesOf(states[i].rule, n) <==> FoundAtFirst(base[..i], w, (n, t)) {
        BaseInsertIs(rules, w, arity, states[m], r, t);
        assert t in TuplesOf(states[i].rule, n) <==> RuleAfter(ps[m], w, states[m], n, t);
        FirstSnoc(base[..m], r, w, n, t);
      }
    }
  }

  lemma {:induction false} FirstSnoc(base: seq<Rule>, r: Rule, w: World, n: Name, t: Tuple)
    ensures FoundAtFirst(base + [r], w, (n, t))
            <==> FoundAtFirst(base, w, (n, t)) || (BaseRule(r) && r.name == n && Derives(r, w, FactsInterp({}), t))
  {
    hide Derives, BaseRule;
    var all := base + [r];
    assert r in all && forall q :: q in all <==> q in base || q == r;
  }

  lemma {:induction false} BaseInsertIs(rules: seq<Rule>, w: World, arity: map<Name, nat>, st: Derived, r: Rule,
                                        t: Tuple)
    requires RulesAccepted(rules, w.attrs, arity) && AllAligned(rules, w.attrs) && WorldFits(w)
             && Sound(rules, w, arity, st) && r in rules && BaseRule(r)
    ensures Inserts(Emitted(r, w.attrs, {}), w, st.rule, st.delta, t) <==> Derives(r, w, FactsInterp({}), t)
    ensures Emitted(r, w.attrs, {}).into == r.name
  {
    assert RuleAccepted(r, w.attrs, arity) && Aligned(r, w.attrs);
    SoundFits(rules, w, arity, st);
    IntoIs(r, w.attrs, {});
    hide *;
    StatementIsRule(r, w, arity, st.rule, st.delta, {}, t);
    var I := Reading(st.rule, st.delta, {});
    if Derives(r, w, I, t) {
      BaseIgnoresTables(r, w, I, FactsInterp({}), t);
    }
    if Derives(r, w, FactsInterp({}), t) {
      BaseIgnoresTables(r, w, FactsInterp({}), I, t);
    }
  }

  lemma {:induction false} SeedsKeepRules(ps: seq<PlanStmt>, w: World, states: seq<Derived>, i: nat, j: nat)
    requires Passes(ps, w, states) && i <= j <= |ps| && forall k :: i <= k < |ps| ==> ps[k].Seed?
    ensures SameRules(states[i], states[j])
  {
    hide TuplesOf;
    if i < j {
      SeedsKeepRules(ps, w, states, i, j - 1);
      var m := j - 1;
      assert Executes(ps[m], w, states[m], states[m + 1]);
      forall n, t ensures t in TuplesOf(states[m].rule, n) <==> t in TuplesOf(states[j].rule, n) {
        assert RuleAfter(ps[m], w, states[m], n, t) <==> t in TuplesOf(states[m].rule, n);
      }
    }
  }

  /** BaseSQL inserts for the rules without applications, and then seeds. */
  lemma {:induction false} BaseShape(plan: Plan, rules: seq<Rule>, w: World, arity: map<Name, nat>)
                                     returns (base: seq<Rule>)
    requires Ready(plan, rules, w, arity)
    ensures forall r :: r in base <==> r in rules && BaseRule(r)
    ensures |base| <= |plan.base|
            && forall k :: 0 <= k < |base| ==> plan.base[k] == Insert(Emitted(base[k], w.attrs, {}))
    ensures forall k :: |base| <= k < |plan.base| ==> plan.base[k].Seed?
  {
    base := BaseRules(rules, NamesOf(rules));
    var inserts := BaseInserts(base, w.attrs);
    InsertsNth(base, w.attrs);
    hide Emitted, BaseRule, BaseRules, BaseInserts, NamesOf, VariantOf, AllAligned, WorldFits;
    forall r ensures r in base <==> r in rules && BaseRule(r) {
      BaseRulesAre(rules, NamesOf(rules), rules, w.attrs, arity, r);
    }
    assert forall k :: 0 <= k < |base| ==> plan.base[..|inserts|][k] == inserts[k];
    forall k | |base| <= k < |plan.base| ensures plan.base[k].Seed? {
      assert plan.base[k] in plan.base[|inserts|..];
    }
  }

  lemma {:induction false} ReadyParts(plan: Plan, rules: seq<Rule>, w: World, arity: map<Name, nat>)
    requires Ready(plan, rules, w, arity)
    ensures RulesAccepted(rules, w.attrs, arity) && AllAligned(rules, w.attrs) && WorldFits(w)
            && IsPlan(plan, rules, w.attrs)
  {
  }

  /** BaseSQL, from empty tables, derives exactly what the rules without applications derive
      from the datoms. */
  lemma {:induction false} BaseRuns(plan: Plan, rules: seq<Rule>, w: World, arity: map<Name, nat>, states: seq<Derived>)
    requires Ready(plan, rules, w, arity) && Passes(plan.base, w, states) && Empty(states[0])
    ensures forall n, t :: t in TuplesOf(states[|plan.base|].rule, n) <==> FoundAtFirst(rules, w, (n, t))
  {
    hide Ready, TuplesOf, Emitted, EmittedFor, BaseRule, RulesAccepted, AllAligned, WorldFits, Executes, DeltaRound,
      Empty, IsPlan, FoundAtFirst;
    ReadyParts(plan, rules, w, arity);
    PlansAreRounds(plan, rules, w.attrs);
    var base := BaseShape(plan, rules, w, arity);
    assert forall k :: 0 <= k < |base| ==> base[k] in base;
    BaseStates(rules, w, arity, base, plan.base, states, |base|);
    SeedsKeepRules(plan.base, w, states, |base|, |plan.base|);
    assert base[..|base|] == base;
    forall n, t ensures FoundAtFirst(base, w, (n, t)) <==> FoundAtFirst(rules, w, (n, t)) {
      SameBase(base, rules, w, n, t);
    }
  }

  lemma {:induction false} SameBase(base: seq<Rule>, rules: seq<Rule>, w: World, n: Name, t: Tuple)
    requires forall r :: r in base <==> r in rules && BaseRule(r)
    ensures FoundAtFirst(base, w, (n, t)) <==> FoundAtFirst(rules, w, (n, t))
  {
    hide Derives, BaseRule;
  }

  /** Nothing more follows from what the rules without applications derive. */
  ghost predicate BaseIsClosed(rules: seq<Rule>, w: World) {
    forall r, t :: r in rules && Derives(r, w, (n: Name, u: Tuple) => FoundAtFirst(rules, w, (n, u)), t)
      ==> FoundAtFirst(rules, w, (r.name, t))
  }

  /** The plan run as emitted, from empty tables: BaseSQL, then any number of iterations. It
      ends with exactly what the rules without applications derive, and so holds the least
      model exactly when the other rules derive nothing more from that. */
  lemma {:induction false} WholePlanExactly(plan: Plan, rules: seq<Rule>, w: World, arity: map<Name, nat>, k: nat,
                                            first: seq<Derived>, then_: seq<Derived>)
    requires Ready(plan, rules, w, arity)
    requires Passes(plan.base, w, first) && Empty(first[0])
    requires Passes(Repeat(plan.clears + plan.variants, k), w, then_) && then_[0] == first[|first| - 1]
    ensures var end := then_[|then_| - 1];
            && (forall n, t :: t in TuplesOf(end.rule, n) <==> FoundAtFirst(rules, w, (n, t)))
            && ((forall n, t :: t in TuplesOf(end.rule, n) <==> Least(rules, w, n, t)) <==> BaseIsClosed(rules, w))
  {
    var end := then_[|then_| - 1];
    var start := then_[0];
    assert |first| == |plan.base| + 1;
    PlansAreRounds(plan, rules, w.attrs);
    BaseRuns(plan, rules, w, arity, first);
    EmptyIsSound(rules, w, arity, first[0]);
    hide TuplesOf, Emitted, EmittedFor, RulesAccepted, AllAligned, WorldFits, Executes, DeltaRound, Empty, NamesOf,
      FoundAtFirst, Least, Sound, BaseIsClosed, IsPlan;
    SoundAsEmitted(rules, w, arity, plan.base, first, |plan.base|);
    RoundsAddNothing(plan.clears, plan.variants, NamesOf(rules), w.attrs, w, k, then_);
    RepeatedIn(plan.clears + plan.variants, k);
    PlanCompleteExactly(rules, w, arity, plan.clears, plan.variants, NamesOf(rules), k, then_);
    ClosedIsModel(rules, w, start);
  }

  lemma {:induction false} RepeatedIn(round: seq<PlanStmt>, k: nat)
    ensures forall p :: p in Repeat(round, k) ==> p in round
  {
    if k > 0 {
      RepeatedIn(round, k - 1);
    }
  }

  lemma {:induction false} ClosedIsModel(rules: seq<Rule>, w: World, st: Derived)
    requires forall n, t :: t in TuplesOf(st.rule, n) <==> FoundAtFirst(rules, w, (n, t))
    ensures IsModel(rules, w, RuleTables(st)) <==> BaseIsClosed(rules, w)
  {
    hide TuplesOf, Derives, FoundAtFirst;
    var I, J := RuleTables(st), (n: Name, u: Tuple) => FoundAtFirst(rules, w, (n, u));
    assert Included(I, J) && Included(J, I);
    forall r, t ensures Derives(r, w, I, t) <==> Derives(r, w, J, t) {
      if Derives(r, w, I, t) {
        DerivesMonotone(r, w, I, J, t);
      }
      if Derives(r, w, J, t) {
        DerivesMonotone(r, w, J, I, t);
      }
    }
  }

  lemma {:induction false} ArityNames(rules: seq<Rule>)
    ensures ArityOf(rules).Keys == NamesOf(rules)
  {
    if rules != [] {
      var n := |rules| - 1;
      ArityNames(rules[..n]);
      assert rules == rules[..n] + [rules[n]];
      assert NamesOf(rules) == NamesOf(rules[..n]) + {rules[n].name};
    }
  }

  /** The theorems above are about what PlanRecursive returns. */
  lemma {:induction false} PlannedIsReady(plan: Plan, rules: seq<Rule>, w: World)
    requires Plannable(rules, w.attrs) && IsPlan(plan, rules, w.attrs) && AllAligned(rules, w.attrs) && WorldFits(w)
    ensures Ready(plan, rules, w, ArityOf(rules))
  {
    ArityNames(rules);
    hide IsPlan, WorldFits, AllAligned, RuleAccepted, ArityOf, NamesOf;
  }
}
