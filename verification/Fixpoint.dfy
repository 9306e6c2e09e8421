/** Evaluating rules. The least model, what the emitted statements do in any order, and
    the semi-naive loop they are meant to be run in. */
module Fixpoint {
  import opened Prelude
  import opened Rules
  import opened RuleMeaning

  // ---------------------------------------------------------------------
  // The least model
  // ---------------------------------------------------------------------

  /** What is derived within k rounds of all rules. */
  ghost predicate Stage(rules: seq<Rule>, w: World, k: nat, n: Name, t: Tuple) {
    k > 0 && (Stage(rules, w, k - 1, n, t)
              || exists r :: r in rules && r.name == n && Derives(r, w, StageInterp(rules, w, k - 1), t))
  }

  ghost function StageInterp(rules: seq<Rule>, w: World, k: nat): Interp {
    (n: Name, t: Tuple) => Stage(rules, w, k, n, t)
  }

  ghost predicate Least(rules: seq<Rule>, w: World, n: Name, t: Tuple) {
    exists k: nat :: Stage(rules, w, k, n, t)
  }

  ghost function LeastInterp(rules: seq<Rule>, w: World): Interp {
    (n: Name, t: Tuple) => Least(rules, w, n, t)
  }

  /** Nothing more can be derived. */
  ghost predicate IsModel(rules: seq<Rule>, w: World, I: Interp) {
    forall r, t :: r in rules && Derives(r, w, I, t) ==> I(r.name, t)
  }

  lemma {:induction false} StagesGrow(rules: seq<Rule>, w: World, k: nat, m: nat)
    requires k <= m
    ensures Included(StageInterp(rules, w, k), StageInterp(rules, w, m))
    decreases m - k
  {
    if k < m {
      StagesGrow(rules, w, k, m - 1);
      forall n, t | Stage(rules, w, k, n, t) ensures Stage(rules, w, m, n, t) {
        assert StageInterp(rules, w, k)(n, t) && StageInterp(rules, w, m - 1)(n, t);
      }
    }
  }

  lemma {:induction false} ClauseAtStage(rules: seq<Rule>, c: BodyClause, w: World, sigma: Sigma) returns (k: nat)
    requires ClauseHolds(c, w, LeastInterp(rules, w), sigma)
    ensures ClauseHolds(c, w, StageInterp(rules, w, k), sigma)
  {
    hide TermsAre, PatternTerms, ArgsOf, Stage;
    k := 0;
    if c.BApply? {
      var u: Tuple :| LeastInterp(rules, w)(c.name, u) && TermsAre(c.args, sigma, u);
      k :| Stage(rules, w, k, c.name, u);
      assert StageInterp(rules, w, k)(c.name, u);
    }
  }

  lemma {:induction false} BodyAtStage(rules: seq<Rule>, body: seq<BodyClause>, w: World, sigma: Sigma) returns (k: nat)
    requires BodyHolds(body, w, LeastInterp(rules, w), sigma)
    ensures BodyHolds(body, w, StageInterp(rules, w, k), sigma)
  {
    hide ClauseHolds;
    if body == [] {
      k := 0;
    } else {
      var n := |body| - 1;
      assert forall c :: c in body[..n] ==> c in body;
      assert body[n] in body;
      var i := BodyAtStage(rules, body[..n], w, sigma);
      var j := ClauseAtStage(rules, body[n], w, sigma);
      k := if i < j then j else i;
      StagesGrow(rules, w, i, k);
      StagesGrow(rules, w, j, k);
      hide Included, StageInterp;
      forall c | c in body ensures ClauseHolds(c, w, StageInterp(rules, w, k), sigma) {
        assert c == body[n] || c in body[..n];
        if c in body[..n] {
          ClauseMonotone(c, w, StageInterp(rules, w, i), StageInterp(rules, w, k), sigma);
        } else {
          ClauseMonotone(c, w, StageInterp(rules, w, j), StageInterp(rules, w, k), sigma);
        }
      }
    }
  }

  /** The least model is a model ... */
  lemma {:induction false} LeastIsModel(rules: seq<Rule>, w: World)
    ensures IsModel(rules, w, LeastInterp(rules, w))
  {
    hide BodyHolds, TermsAre;
    forall r, t | r in rules && Derives(r, w, LeastInterp(rules, w), t) ensures Least(rules, w, r.name, t) {
      var sigma: Sigma :| BodyHolds(r.body, w, LeastInterp(rules, w), sigma) && TermsAre(r.head, sigma, t);
      var k := BodyAtStage(rules, r.body, w, sigma);
      assert Derives(r, w, StageInterp(rules, w, k), t);
      assert Stage(rules, w, k + 1, r.name, t);
    }
  }

  lemma {:induction false} StageBelow(rules: seq<Rule>, w: World, k: nat, M: Interp)
    requires IsModel(rules, w, M)
    ensures Included(StageInterp(rules, w, k), M)
  {
    if k > 0 {
      hide Derives;
      StageBelow(rules, w, k - 1, M);
      forall n, t | Stage(rules, w, k, n, t) ensures M(n, t) {
        if Stage(rules, w, k - 1, n, t) {
          assert StageInterp(rules, w, k - 1)(n, t);
        } else {
          var r :| r in rules && r.name == n && Derives(r, w, StageInterp(rules, w, k - 1), t);
          DerivesMonotone(r, w, StageInterp(rules, w, k - 1), M, t);
        }
      }
    }
  }

  /** ... and is part of every model. */
  lemma {:induction false} LeastIsLeast(rules: seq<Rule>, w: World, M: Interp)
    requires IsModel(rules, w, M)
    ensures Included(LeastInterp(rules, w), M)
  {
    hide IsModel, Stage;
    forall n, t | Least(rules, w, n, t) ensures M(n, t) {
      var k: nat :| Stage(rules, w, k, n, t);
      StageBelow(rules, w, k, M);
      assert StageInterp(rules, w, k)(n, t);
    }
  }

  // ---------------------------------------------------------------------
  // Statements, in any order
  // ---------------------------------------------------------------------

  /** The statements of a plan besides CREATE and DROP. */
  datatype PlanStmt =
    | Insert(s: Stmt)
    | Seed(n: Name)        // INSERT OR IGNORE INTO _delta_n SELECT * FROM _rule_n
    | Clear(n: Name)       // DELETE FROM _delta_n

  datatype Derived = Derived(rule: Tables, delta: Tables)

  ghost predicate RuleAfter(p: PlanStmt, w: World, a: Derived, n: Name, t: Tuple) {
    t in TuplesOf(a.rule, n) || (p.Insert? && n == p.s.into && Inserts(p.s, w, a.rule, a.delta, t))
  }

  ghost predicate DeltaAfter(p: PlanStmt, a: Derived, n: Name, t: Tuple) {
    match p
    case Insert(_) => t in TuplesOf(a.delta, n)
    case Seed(m) => t in TuplesOf(a.delta, n) || (n == m && t in TuplesOf(a.rule, n))
    case Clear(m) => n != m && t in TuplesOf(a.delta, n)
  }

  /** One statement, as a relation between the temporary tables before and after. */
  ghost predicate Executes(p: PlanStmt, w: World, a: Derived, b: Derived) {
    && (forall n, t :: t in TuplesOf(b.rule, n) <==> RuleAfter(p, w, a, n, t))
    && (forall n, t :: t in TuplesOf(b.delta, n) <==> DeltaAfter(p, a, n, t))
  }

  /** The states that a sequence of statements passes through. */
  ghost predicate Passes(ps: seq<PlanStmt>, w: World, states: seq<Derived>) {
    |states| == |ps| + 1 && forall i :: 0 <= i < |ps| ==> Executes(ps[i], w, states[i], states[i + 1])
  }

  /** A statement that PlanRecursive may emit for these rules. */
  ghost predicate EmittedFor(p: PlanStmt, rules: seq<Rule>, attrs: map<Bytes, Val>) {
    p.Insert? ==> exists r, d :: r in rules && p.s == Emitted(r, attrs, d)
  }

  ghost predicate RulesAccepted(rules: seq<Rule>, attrs: map<Bytes, Val>, arity: map<Name, nat>) {
    forall r :: r in rules ==> RuleAccepted(r, attrs, arity) && r.name in arity && |r.head| == arity[r.name]
  }

  ghost predicate AllAligned(rules: seq<Rule>, attrs: map<Bytes, Val>) {
    forall r :: r in rules ==> Aligned(r, attrs)
  }

  /** Derived tables hold consequences only, and deltas part of the derived tables. */
  ghost predicate Sound(rules: seq<Rule>, w: World, arity: map<Name, nat>, st: Derived) {
    && (forall n, t :: t in TuplesOf(st.rule, n) ==> Least(rules, w, n, t))
    && (forall n, t :: t in TuplesOf(st.delta, n) ==> t in TuplesOf(st.rule, n))
    && TablesFit(st.rule, arity) && TablesFit(st.delta, arity)
  }

  lemma {:induction false} DerivedLength(r: Rule, w: World, I: Interp, t: Tuple)
    requires Derives(r, w, I, t)
    ensures |t| == |r.head|
  {
  }

  lemma {:induction false} InsertIsSound(rules: seq<Rule>, w: World, arity: map<Name, nat>, st: Derived, r: Rule,
                                         d: set<Name>, t: Tuple)
    requires RulesAccepted(rules, w.attrs, arity) && AllAligned(rules, w.attrs) && WorldFits(w)
             && Sound(rules, w, arity, st) && r in rules
    requires Inserts(Emitted(r, w.attrs, d), w, st.rule, st.delta, t)
    ensures Least(rules, w, r.name, t) && r.name in arity && |t| == arity[r.name]
  {
    var I := Reading(st.rule, st.delta, d);
    assert RuleAccepted(r, w.attrs, arity) && Aligned(r, w.attrs);
    forall n, u | I(n, u) ensures LeastInterp(rules, w)(n, u) {
      assert u in TuplesOf(st.rule, n);
    }
    assert Included(I, LeastInterp(rules, w));
    hide Inserts, Emitted, RuleAccepted, Aligned, Derives, Least, Reading, Included, TuplesOf, Sound, WorldFits,
      TablesFit;
    assert TablesFit(st.rule, arity) && TablesFit(st.delta, arity) by { SoundFits(rules, w, arity, st); }
    StatementIsRule(r, w, arity, st.rule, st.delta, d, t);
    DerivedLength(r, w, I, t);
    DerivesMonotone(r, w, I, LeastInterp(rules, w), t);
    LeastIsModel(rules, w);
  }

  lemma {:induction false} SoundFits(rules: seq<Rule>, w: World, arity: map<Name, nat>, st: Derived)
    requires Sound(rules, w, arity, st)
    ensures TablesFit(st.rule, arity) && TablesFit(st.delta, arity)
  {
  }

  lemma {:induction false} StatementKeepsSound(rules: seq<Rule>, w: World, arity: map<Name, nat>, p: PlanStmt,
                                               a: Derived, b: Derived)
    requires RulesAccepted(rules, w.attrs, arity) && AllAligned(rules, w.attrs) && WorldFits(w)
    requires EmittedFor(p, rules, w.attrs) && Executes(p, w, a, b) && Sound(rules, w, arity, a)
    ensures Sound(rules, w, arity, b)
  {
    hide RulesAccepted, AllAligned, WorldFits, Least, Inserts, Emitted;
    forall n, t | t in TuplesOf(b.rule, n) ensures Least(rules, w, n, t) && OfArity(n, t, arity) {
      assert RuleAfter(p, w, a, n, t);
      if t !in TuplesOf(a.rule, n) {
        var r, d :| r in rules && p.s == Emitted(r, w.attrs, d);
        IntoIs(r, w.attrs, d);
        InsertIsSound(rules, w, arity, a, r, d, t);
      }
    }
    forall n, t | t in TuplesOf(b.delta, n) ensures t in TuplesOf(b.rule, n) {
      assert DeltaAfter(p, a, n, t);
      assert RuleAfter(p, w, a, n, t);
    }
  }

  lemma {:induction false} IntoIs(r: Rule, attrs: map<Bytes, Val>, d: set<Name>)
    ensures Emitted(r, attrs, d).into == r.name
  {
  }

  /** Any number of executions of the emitted statements, in any order, from empty tables
      or from where other executions left them, keep every derived table inside the least
      model and every delta inside its derived table. */
  lemma {:induction false} SoundAsEmitted(rules: seq<Rule>, w: World, arity: map<Name, nat>, ps: seq<PlanStmt>,
                                          states: seq<Derived>, i: nat)
    requires RulesAccepted(rules, w.attrs, arity) && AllAligned(rules, w.attrs) && WorldFits(w)
    requires (forall p :: p in ps ==> EmittedFor(p, rules, w.attrs)) && Passes(ps, w, states)
    requires Sound(rules, w, arity, states[0]) && i < |states|
    ensures Sound(rules, w, arity, states[i])
  {
    hide RulesAccepted, AllAligned, WorldFits, EmittedFor, Executes, Sound;
    if i > 0 {
      SoundAsEmitted(rules, w, arity, ps, states, i - 1);
      assert ps[i - 1] in ps && Executes(ps[i - 1], w, states[i - 1], states[i - 1 + 1]);
      StatementKeepsSound(rules, w, arity, ps[i - 1], states[i - 1], states[i]);
    }
  }

  // ---------------------------------------------------------------------
  // What the emitted rounds add
  // ---------------------------------------------------------------------

  predicate AppliesRule(body: seq<BodyClause>, m: Name) {
    exists c :: c in body && c.BApply? && c.name == m
  }

  ghost predicate IsVariant(p: PlanStmt, names: set<Name>, attrs: map<Bytes, Val>) {
    exists r: Rule, m :: m in names && AppliesRule(r.body, m) && p == Insert(Emitted(r, attrs, {m}))
  }

  /** An iteration as emitted: every delta is cleared, then each variant reads the delta
      of a rule that its body applies. */
  ghost predicate DeltaRound(clears: seq<PlanStmt>, variants: seq<PlanStmt>, names: set<Name>, attrs: map<Bytes, Val>) {
    && (forall p :: p in clears ==> p.Clear?)
    && (forall m :: m in names ==> Clear(m) in clears)
    && (forall p :: p in variants ==> IsVariant(p, names, attrs))
  }

  ghost predicate NoDelta(st: Derived, names: set<Name>) {
    forall n, t :: n in names ==> t !in TuplesOf(st.delta, n)
  }

  ghost predicate SameRules(a: Derived, b: Derived) {
    forall n, t :: t in TuplesOf(a.rule, n) <==> t in TuplesOf(b.rule, n)
  }

  lemma {:induction false} FromsApply(body: seq<BodyClause>, m: Name)
    requires AppliesRule(body, m)
    ensures SDelta(m) in Froms(body, {m})
  {
    var n := |body| - 1;
    var c :| c in body && c.BApply? && c.name == m;
    if body[n] == c {
    } else {
      assert c in body[..n];
      FromsApply(body[..n], m);
    }
  }

  /** A variant that reads an empty delta inserts nothing. */
  lemma {:induction false} EmptyDeltaInsertsNothing(r: Rule, m: Name, w: World, attrs: map<Bytes, Val>, st: Derived,
                                                    t: Tuple)
    requires AppliesRule(r.body, m) && forall u :: u !in TuplesOf(st.delta, m)
    ensures !Inserts(Emitted(r, attrs, {m}), w, st.rule, st.delta, t)
  {
    FromsApply(r.body, m);
    hide AppliesRule, Froms, Items, TrackOf, CondsHold, OperandVals, IsTuple;
    var st' := Emitted(r, attrs, {m});
    var k :| 0 <= k < |st'.from| && st'.from[k] == SDelta(m);
    forall rows: seq<Tuple> ensures !RowsIn(st'.from, w, st.rule, st.delta, rows) {
      assert |rows| == |st'.from| ==> !InSource(st'.from[k], w, st.rule, st.delta, rows[k]);
    }
  }

  lemma {:induction false} ClearsClear(clears: seq<PlanStmt>, w: World, states: seq<Derived>)
    requires (forall p :: p in clears ==> p.Clear?) && Passes(clears, w, states)
    ensures SameRules(states[0], states[|clears|])
    ensures forall m, t :: Clear(m) in clears ==> t !in TuplesOf(states[|clears|].delta, m)
  {
    hide TuplesOf;
    if clears != [] {
      var k := |clears| - 1;
      var pre := clears[..k];
      assert clears == pre + [clears[k]];
      assert Passes(pre, w, states[..k + 1]) by {
        forall i | 0 <= i < k ensures Executes(pre[i], w, states[..k + 1][i], states[..k + 1][i + 1]) {
          assert Executes(clears[i], w, states[i], states[i + 1]);
        }
      }
      ClearsClear(pre, w, states[..k + 1]);
      assert states[..k + 1][k] == states[k] && states[..k + 1][0] == states[0];
      assert clears[k] in clears && Executes(clears[k], w, states[k], states[k + 1]);
      forall n, t ensures t in TuplesOf(states[k].rule, n) <==> t in TuplesOf(states[k + 1].rule, n) {
        assert RuleAfter(clears[k], w, states[k], n, t) <==> t in TuplesOf(states[k].rule, n);
      }
      var last := states[k + 1];
      forall m, t | Clear(m) in clears ensures t !in TuplesOf(last.delta, m) {
        assert t in TuplesOf(last.delta, m) <==> DeltaAfter(clears[k], states[k], m, t);
        assert Clear(m) in pre || clears[k] == Clear(m);
      }
    }
  }

  lemma {:induction false} VariantsAddNothing(variants: seq<PlanStmt>, names: set<Name>, attrs: map<Bytes, Val>,
                                              w: World, states: seq<Derived>)
    requires forall p :: p in variants ==> IsVariant(p, names, attrs)
    requires Passes(variants, w, states) && NoDelta(states[0], names)
    ensures SameRules(states[0], states[|variants|]) && NoDelta(states[|variants|], names)
  {
    hide TuplesOf, Inserts, Emitted, AppliesRule;
    if variants != [] {
      var k := |variants| - 1;
      var pre, p := variants[..k], variants[k];
      assert Passes(pre, w, states[..k + 1]) by {
        forall i | 0 <= i < k ensures Executes(pre[i], w, states[..k + 1][i], states[..k + 1][i + 1]) {
          assert Executes(variants[i], w, states[i], states[i + 1]);
        }
      }
      assert forall q :: q in pre ==> q in variants;
      VariantsAddNothing(pre, names, attrs, w, states[..k + 1]);
      assert states[..k + 1][k] == states[k] && states[..k + 1][0] == states[0];
      assert p in variants && Executes(p, w, states[k], states[k + 1]);
      var r: Rule, m :| m in names && AppliesRule(r.body, m) && p == Insert(Emitted(r, attrs, {m}));
      forall n, t ensures t in TuplesOf(states[k].rule, n) <==> t in TuplesOf(states[k + 1].rule, n) {
        EmptyDeltaInsertsNothing(r, m, w, attrs, states[k], t);
        assert RuleAfter(p, w, states[k], n, t) <==> t in TuplesOf(states[k].rule, n);
      }
      var last := states[k + 1];
      forall n, t | n in names ensures t !in TuplesOf(last.delta, n) {
        assert DeltaAfter(p, states[k], n, t) <==> t in TuplesOf(states[k].delta, n);
      }
    }
  }

  /** As emitted, an iteration clears the deltas that its variants read, so from whatever
      state it starts it adds no tuple. */
  lemma {:induction false} RoundAddsNothing(clears: seq<PlanStmt>, variants: seq<PlanStmt>, names: set<Name>,
                                            attrs: map<Bytes, Val>, w: World, states: seq<Derived>)
    requires DeltaRound(clears, variants, names, attrs) && Passes(clears + variants, w, states)
    ensures SameRules(states[0], states[|states| - 1]) && NoDelta(states[|states| - 1], names)
  {
    hide Executes, TuplesOf, AppliesRule, Emitted;
    var k := |clears|;
    var a, b := states[..k + 1], states[k..];
    assert Passes(clears, w, a) by {
      forall i | 0 <= i < k ensures Executes(clears[i], w, a[i], a[i + 1]) {
        assert (clears + variants)[i] == clears[i];
      }
    }
    assert Passes(variants, w, b) by {
      forall i | 0 <= i < |variants| ensures Executes(variants[i], w, b[i], b[i + 1]) {
        assert (clears + variants)[k + i] == variants[i] && b[i] == states[k + i] && b[i + 1] == states[k + i + 1];
      }
    }
    ClearsClear(clears, w, a);
    VariantsAddNothing(variants, names, attrs, w, b);
  }

  function Repeat(round: seq<PlanStmt>, k: nat): seq<PlanStmt> {
    if k == 0 then [] else Repeat(round, k - 1) + round
  }

  /** Nor do any number of iterations. */
  lemma {:induction false} RoundsAddNothing(clears: seq<PlanStmt>, variants: seq<PlanStmt>, names: set<Name>,
                                            attrs: map<Bytes, Val>, w: World, k: nat, states: seq<Derived>)
    requires DeltaRound(clears, variants, names, attrs) && Passes(Repeat(clears + variants, k), w, states)
    ensures SameRules(states[0], states[|states| - 1])
  {
    hide Executes, TuplesOf, DeltaRound;
    if k > 0 {
      var pre, round := Repeat(clears + variants, k - 1), clears + variants;
      var m := |pre|;
      var a, b := states[..m + 1], states[m..];
      assert Passes(pre, w, a) by {
        forall i | 0 <= i < m ensures Executes(pre[i], w, a[i], a[i + 1]) {
          assert (pre + round)[i] == pre[i];
        }
      }
      assert Passes(round, w, b) by {
        forall i | 0 <= i < |round| ensures Executes(round[i], w, b[i], b[i + 1]) {
          assert (pre + round)[m + i] == round[i] && b[i] == states[m + i] && b[i + 1] == states[m + i + 1];
        }
      }
      RoundsAddNothing(clears, variants, names, attrs, w, k - 1, a);
      RoundAddsNothing(clears, variants, names, attrs, w, b);
    }
  }

  ghost function RuleTables(st: Derived): Interp {
    (n: Name, t: Tuple) => t in TuplesOf(st.rule, n)
  }

  /** Derived tables that are sound hold the least model exactly when they are a model. */
  lemma {:induction false} CompleteExactly(rules: seq<Rule>, w: World, arity: map<Name, nat>, st: Derived)
    requires Sound(rules, w, arity, st)
    ensures (forall n, t :: t in TuplesOf(st.rule, n) <==> Least(rules, w, n, t)) <==> IsModel(rules, w, RuleTables(st))
  {
    var I := RuleTables(st);
    hide TuplesOf, Least, Derives, TablesFit;
    if IsModel(rules, w, I) {
      hide IsModel;
      LeastIsLeast(rules, w, I);
      forall n, t ensures t in TuplesOf(st.rule, n) <==> Least(rules, w, n, t) {
        assert LeastInterp(rules, w)(n, t) ==> I(n, t);
      }
    }
    if forall n, t :: t in TuplesOf(st.rule, n) <==> Least(rules, w, n, t) {
      assert Included(I, LeastInterp(rules, w));
      LeastIsModel(rules, w);
      forall r, t | r in rules && Derives(r, w, I, t) ensures I(r.name, t) {
        DerivesMonotone(r, w, I, LeastInterp(rules, w), t);
      }
    }
  }

  lemma {:induction false} SameRulesSameModel(rules: seq<Rule>, w: World, a: Derived, b: Derived)
    requires SameRules(a, b)
    ensures IsModel(rules, w, RuleTables(a)) <==> IsModel(rules, w, RuleTables(b))
  {
    hide TuplesOf, Derives;
    assert Included(RuleTables(a), RuleTables(b)) && Included(RuleTables(b), RuleTables(a));
    forall r, t ensures Derives(r, w, RuleTables(a), t) <==> Derives(r, w, RuleTables(b), t) {
      if Derives(r, w, RuleTables(a), t) {
        DerivesMonotone(r, w, RuleTables(a), RuleTables(b), t);
      }
      if Derives(r, w, RuleTables(b), t) {
        DerivesMonotone(r, w, RuleTables(b), RuleTables(a), t);
      }
    }
  }

  /** However often the emitted iteration runs, the plan finds everything derivable
      exactly when what BaseSQL found is already closed under the rules. */
  lemma {:induction false} PlanCompleteExactly(rules: seq<Rule>, w: World, arity: map<Name, nat>,
                                               clears: seq<PlanStmt>, variants: seq<PlanStmt>, names: set<Name>,
                                               k: nat, states: seq<Derived>)
    requires RulesAccepted(rules, w.attrs, arity) && AllAligned(rules, w.attrs) && WorldFits(w)
    requires DeltaRound(clears, variants, names, w.attrs) && Passes(Repeat(clears + variants, k), w, states)
    requires (forall p :: p in Repeat(clears + variants, k) ==> EmittedFor(p, rules, w.attrs))
             && Sound(rules, w, arity, states[0])
    ensures var end := states[|states| - 1];
            (forall n, t :: t in TuplesOf(end.rule, n) <==> Least(rules, w, n, t))
              <==> IsModel(rules, w, RuleTables(states[0]))
  {
    hide RulesAccepted, AllAligned, WorldFits, DeltaRound, Executes, EmittedFor, Sound, TuplesOf, Least, IsModel,
      SameRules, Repeat;
    var end := states[|states| - 1];
    RoundsAddNothing(clears, variants, names, w.attrs, w, k, states);
    SoundAsEmitted(rules, w, arity, Repeat(clears + variants, k), states, |states| - 1);
    CompleteExactly(rules, w, arity, end);
    SameRulesSameModel(rules, w, states[0], end);
  }
}
