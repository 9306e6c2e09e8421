/** The semi-naive loop that the emitted plan is meant for: new tuples are those derived
    with one application reading the last round's new tuples. */
module SemiNaive {
  import opened Prelude
  import opened Rules
  import opened RuleMeaning
  import opened Fixpoint

  type Facts = set<(Name, Tuple)>

  function FactsInterp(F: Facts): Interp {
    (n: Name, t: Tuple) => (n, t) in F
  }

  /** Applications of the rules in d read the new facts, the others all facts. */
  function ReadingFacts(F: Facts, D: Facts, d: set<Name>): Interp {
    (n: Name, t: Tuple) => (n, t) in (if n in d then D else F)
  }

  /** Some variant derives the fact: one per rule name that the body applies. */
  ghost predicate Found(rules: seq<Rule>, w: World, F: Facts, D: Facts, f: (Name, Tuple)) {
    exists r, m :: r in rules && r.name == f.0 && AppliesRule(r.body, m) && Derives(r, w, ReadingFacts(F, D, {m}), f.1)
  }

  ghost predicate BaseRule(r: Rule) {
    forall m :: !AppliesRule(r.body, m)
  }

  /** What the rules without applications derive. */
  ghost predicate FoundAtFirst(rules: seq<Rule>, w: World, f: (Name, Tuple)) {
    exists r :: r in rules && r.name == f.0 && BaseRule(r) && Derives(r, w, FactsInterp({}), f.1)
  }

  /** A finite set that the rules do not lead out of. */
  ghost predicate Bounds(rules: seq<Rule>, w: World, U: Facts) {
    IsModel(rules, w, FactsInterp(U))
  }

  ghost function NewFacts(rules: seq<Rule>, w: World, U: Facts, F: Facts, D: Facts): Facts {
    set f | f in U && f !in F && Found(rules, w, F, D, f)
  }

  ghost function BaseFacts(rules: seq<Rule>, w: World, U: Facts): Facts {
    set f | f in U && FoundAtFirst(rules, w, f)
  }

  /** The loop, from all facts F of which D are new: it ends when a round adds nothing,
      and every other round uses up underived facts. */
  ghost function Loop(rules: seq<Rule>, w: World, U: Facts, F: Facts, D: Facts): Facts
    requires F <= U
    decreases U - F
  {
    var N := NewFacts(rules, w, U, F, D);
    if N == {} then F
    else
      assert U - (F + N) < U - F by {
        var f :| f in N;
        assert f in U - F && f !in U - (F + N);
      }
      Loop(rules, w, U, F + N, N)
  }

  ghost function SemiNaiveResult(rules: seq<Rule>, w: World, U: Facts): Facts {
    Loop(rules, w, U, BaseFacts(rules, w, U), BaseFacts(rules, w, U))
  }

  // ---------------------------------------------------------------------
  // Completeness
  // ---------------------------------------------------------------------

  predicate AppliesOnce(body: seq<BodyClause>) {
    forall i, j :: 0 <= i < j < |body| && body[i].BApply? && body[j].BApply? ==> body[i].name != body[j].name
  }

  /** Everything derivable without the newest facts has been found, and nothing else. */
  ghost predicate LoopInv(rules: seq<Rule>, w: World, U: Facts, F: Facts, D: Facts) {
    && D <= F <= U
    && (forall f :: f in F ==> Least(rules, w, f.0, f.1))
    && (forall r, t :: r in rules && Derives(r, w, FactsInterp(F - D), t) ==> (r.name, t) in F)
  }

  /** A body that holds only with a new fact holds with one application reading the new
      facts, when no name is applied twice. */
  lemma {:induction false} OneVariant(body: seq<BodyClause>, w: World, F: Facts, D: Facts, sigma: Sigma)
                                      returns (m: Name)
    requires AppliesOnce(body) && D <= F
    requires BodyHolds(body, w, FactsInterp(F), sigma) && !BodyHolds(body, w, FactsInterp(F - D), sigma)
    ensures AppliesRule(body, m) && BodyHolds(body, w, ReadingFacts(F, D, {m}), sigma)
  {
    hide TermsAre, PatternTerms, ArgsOf;
    var c :| c in body && !ClauseHolds(c, w, FactsInterp(F - D), sigma);
    assert ClauseHolds(c, w, FactsInterp(F), sigma) && c.BApply?;
    m := c.name;
    var u: Tuple :| FactsInterp(F)(m, u) && TermsAre(c.args, sigma, u);
    assert !FactsInterp(F - D)(m, u);
    assert ReadingFacts(F, D, {m})(m, u);
    var i :| 0 <= i < |body| && body[i] == c;
    forall e | e in body ensures ClauseHolds(e, w, ReadingFacts(F, D, {m}), sigma) {
      assert ClauseHolds(e, w, FactsInterp(F), sigma);
      var j :| 0 <= j < |body| && body[j] == e;
      if e.BApply? && j != i {
        assert e.name != m;
        var v: Tuple :| FactsInterp(F)(e.name, v) && TermsAre(e.args, sigma, v);
        assert ReadingFacts(F, D, {m})(e.name, v);
      }
    }
  }

  lemma {:induction false} DerivedIsFound(rules: seq<Rule>, w: World, U: Facts, F: Facts, D: Facts, r: Rule, t: Tuple)
    requires LoopInv(rules, w, U, F, D) && Bounds(rules, w, U) && r in rules && AppliesOnce(r.body)
    requires Derives(r, w, FactsInterp(F), t)
    ensures (r.name, t) in F + NewFacts(rules, w, U, F, D)
  {
    var sigma: Sigma :| BodyHolds(r.body, w, FactsInterp(F), sigma) && TermsAre(r.head, sigma, t);
    assert (r.name, t) in U by {
      hide BodyHolds, TermsAre;
      DerivesMonotone(r, w, FactsInterp(F), FactsInterp(U), t);
    }
    hide BodyHolds, TermsAre, Bounds, Least;
    if BodyHolds(r.body, w, FactsInterp(F - D), sigma) {
      assert Derives(r, w, FactsInterp(F - D), t);
    } else {
      var m := OneVariant(r.body, w, F, D, sigma);
      assert Derives(r, w, ReadingFacts(F, D, {m}), t);
      assert Found(rules, w, F, D, (r.name, t));
    }
  }

  lemma {:induction false} FoundIsLeast(rules: seq<Rule>, w: World, F: Facts, D: Facts, f: (Name, Tuple))
    requires D <= F && (forall g :: g in F ==> Least(rules, w, g.0, g.1)) && Found(rules, w, F, D, f)
    ensures Least(rules, w, f.0, f.1)
  {
    hide Derives, Least, AppliesRule;
    var r, m :| r in rules && r.name == f.0 && AppliesRule(r.body, m) && Derives(r, w, ReadingFacts(F, D, {m}), f.1);
    var I := ReadingFacts(F, D, {m});
    forall n, t | I(n, t) ensures LeastInterp(rules, w)(n, t) {
      assert (n, t) in F && Least(rules, w, (n, t).0, (n, t).1);
    }
    DerivesMonotone(r, w, I, LeastInterp(rules, w), f.1);
    LeastIsModel(rules, w);
  }

  ghost predicate AllApplyOnce(rules: seq<Rule>) {
    forall r :: r in rules ==> AppliesOnce(r.body)
  }

  lemma {:induction false} RoundKeeps(rules: seq<Rule>, w: World, U: Facts, F: Facts, D: Facts)
    requires LoopInv(rules, w, U, F, D) && Bounds(rules, w, U) && AllApplyOnce(rules)
    ensures var N := NewFacts(rules, w, U, F, D); LoopInv(rules, w, U, F + N, N)
  {
    var N := NewFacts(rules, w, U, F, D);
    assert F + N - N == F;
    hide AppliesOnce, Least, Derives, Bounds;
    forall f | f in N ensures Least(rules, w, f.0, f.1) {
      hide Found;
      FoundIsLeast(rules, w, F, D, f);
    }
    forall r, t | r in rules && Derives(r, w, FactsInterp(F), t) ensures (r.name, t) in F + N {
      hide NewFacts;
      DerivedIsFound(rules, w, U, F, D, r, t);
    }
  }

  lemma {:induction false} LoopReaches(rules: seq<Rule>, w: World, U: Facts, F: Facts, D: Facts)
    requires LoopInv(rules, w, U, F, D) && Bounds(rules, w, U) && AllApplyOnce(rules)
    ensures forall n, t :: (n, t) in Loop(rules, w, U, F, D) <==> Least(rules, w, n, t)
    decreases U - F
  {
    var N := NewFacts(rules, w, U, F, D);
    RoundKeeps(rules, w, U, F, D);
    if N == {} {
      hide AllApplyOnce, Least, Derives, Bounds, NewFacts;
      assert F - N == F;
      assert F + N == F;
      assert IsModel(rules, w, FactsInterp(F));
      LeastIsLeast(rules, w, FactsInterp(F));
      forall n, t ensures (n, t) in F <==> Least(rules, w, n, t) {
        assert LeastInterp(rules, w)(n, t) ==> FactsInterp(F)(n, t);
        assert (n, t) in F ==> Least(rules, w, (n, t).0, (n, t).1);
      }
    } else {
      assert U - (F + N) < U - F by {
        var f :| f in N;
        assert f in U - F && f !in U - (F + N);
      }
      LoopReaches(rules, w, U, F + N, N);
    }
  }

  lemma {:induction false} NothingApplies(r: Rule, w: World, t: Tuple, m: Name)
    requires Derives(r, w, FactsInterp({}), t)
    ensures !AppliesRule(r.body, m)
  {
    hide TermsAre, PatternTerms, ArgsOf;
  }

  lemma {:induction false} BaseStarts(rules: seq<Rule>, w: World, U: Facts)
    requires Bounds(rules, w, U)
    ensures LoopInv(rules, w, U, BaseFacts(rules, w, U), BaseFacts(rules, w, U))
  {
    var F := BaseFacts(rules, w, U);
    assert F - F == {};
    assert Included(FactsInterp({}), LeastInterp(rules, w)) && Included(FactsInterp({}), FactsInterp(U));
    hide Derives, Least, AppliesRule;
    LeastIsModel(rules, w);
    forall f | f in F ensures Least(rules, w, f.0, f.1) {
      var r :| r in rules && r.name == f.0 && BaseRule(r) && Derives(r, w, FactsInterp({}), f.1);
      DerivesMonotone(r, w, FactsInterp({}), LeastInterp(rules, w), f.1);
    }
    forall r, t | r in rules && Derives(r, w, FactsInterp({}), t) ensures (r.name, t) in F {
      DerivesMonotone(r, w, FactsInterp({}), FactsInterp(U), t);
      forall m ensures !AppliesRule(r.body, m) {
        NothingApplies(r, w, t, m);
      }
      assert FoundAtFirst(rules, w, (r.name, t));
    }
  }

  // ---------------------------------------------------------------------
  // The active domain bounds what can be derived
  // ---------------------------------------------------------------------

  function Prefixed(dom: set<Val>, ts: set<Tuple>): set<Tuple> {
    set v, t | v in dom && t in ts :: [v] + t
  }

  function AllTuples(dom: set<Val>, k: nat): set<Tuple> {
    if k == 0 then {[]} else Prefixed(dom, AllTuples(dom, k - 1))
  }

  lemma {:induction false} PrefixedHas(dom: set<Val>, ts: set<Tuple>, v: Val, u: Tuple)
    requires v in dom && u in ts
    ensures [v] + u in Prefixed(dom, ts)
  {
    assert exists x, y :: x in dom && y in ts && [v] + u == [x] + y;
  }

  lemma {:induction false} AllTuplesIff(dom: set<Val>, k: nat, t: Tuple)
    ensures t in AllTuples(dom, k) <==> |t| == k && forall i :: 0 <= i < k ==> t[i] in dom
  {
    if k > 0 {
      if t in AllTuples(dom, k) {
        var v, u :| v in dom && u in AllTuples(dom, k - 1) && t == [v] + u;
        AllTuplesIff(dom, k - 1, u);
      }
      if |t| == k && forall i :: 0 <= i < k ==> t[i] in dom {
        assert forall i :: 0 <= i < k - 1 ==> t[1..][i] == t[i + 1];
        AllTuplesIff(dom, k - 1, t[1..]);
        assert t[0] in dom && t[1..] in AllTuples(dom, k - 1) && t == [t[0]] + t[1..];
        PrefixedHas(dom, AllTuples(dom, k - 1), t[0], t[1..]);
      }
    }
  }

  /** All tuples of the right length over a domain. */
  function Universe(dom: set<Val>, arity: map<Name, nat>): Facts {
    set n, t | n in arity && t in AllTuples(dom, arity[n]) :: (n, t)
  }

  /** The domain has the values of all datoms and the constants of all heads. */
  ghost predicate Covers(dom: set<Val>, rules: seq<Rule>, w: World) {
    && (forall d, i :: d in w.datoms && 0 <= i < |d| ==> d[i] in dom)
    && (forall r, c :: r in rules && TConst(c) in r.head ==> c in dom)
  }

  predicate HasVar(ts: seq<Term>, x: RVar) { TVar(x) in ts }

  /** The variable stands in a table of the body. */
  ghost predicate Stands(body: seq<BodyClause>, attrs: map<Bytes, Val>, x: RVar) {
    exists c :: c in body && ((c.BPattern? && HasVar(PatternTerms(c, attrs), x)) || (c.BApply? && HasVar(c.args, x)))
  }

  lemma {:induction false} TrackedHasCell(items: seq<Item>, x: RVar) returns (it: Item)
    requires x in TrackOf(items).first
    ensures it in items && it.ICell? && it.t == TVar(x)
  {
    var n := |items| - 1;
    assert TrackOf(items) == Tracked(TrackOf(items[..n]), items[n]);
    hide TrackOf;
    if x in TrackOf(items[..n]).first {
      it := TrackedHasCell(items[..n], x);
    } else {
      it := items[n];
    }
  }

  lemma {:induction false} CellStands(body: seq<BodyClause>, attrs: map<Bytes, Val>, it: Item, x: RVar)
    requires it in Items(body, attrs) && it.ICell? && it.t == TVar(x)
    ensures Stands(body, attrs, x)
  {
    var n := |body| - 1;
    var pre, c := body[..n], body[n];
    if it in Items(pre, attrs) {
      CellStands(pre, attrs, it, x);
      assert forall d :: d in pre ==> d in body;
    } else {
      ClauseCell(c, |Froms(pre, {})|, attrs, it, x);
      assert c in body;
    }
  }

  lemma {:induction false} ClauseCell(c: BodyClause, k: nat, attrs: map<Bytes, Val>, it: Item, x: RVar)
    requires it in ClauseItems(c, k, attrs) && it.ICell? && it.t == TVar(x)
    ensures (c.BPattern? && HasVar(PatternTerms(c, attrs), x)) || (c.BApply? && HasVar(c.args, x))
  {
    if c.BPattern? {
      var ts := PatternTerms(c, attrs);
      hide AttrAsTerm;
      assert it.t == ts[1] || it.t == ts[0] || it.t == ts[2] || it.t == ts[3];
    } else if c.BApply? {
      var i :| 0 <= i < |c.args| && it == Cells(c.args, k)[i];
      assert c.args[i] in c.args;
    }
  }

  lemma {:induction false} BoundValue(ts: seq<Term>, sigma: Sigma, u: Tuple, x: RVar, dom: set<Val>)
    requires HasVar(ts, x) && TermsAre(ts, sigma, u) && forall i :: 0 <= i < |u| ==> u[i] in dom
    ensures x in sigma && sigma[x] in dom
  {
    var i :| 0 <= i < |ts| && ts[i] == TVar(x);
  }

  lemma {:induction false} VarValue(r: Rule, w: World, arity: map<Name, nat>, dom: set<Val>, sigma: Sigma, x: RVar)
    requires BodyHolds(r.body, w, FactsInterp(Universe(dom, arity)), sigma)
             && x in TrackOf(Items(r.body, w.attrs)).first
    requires forall d, i :: d in w.datoms && 0 <= i < |d| ==> d[i] in dom
    ensures x in sigma && sigma[x] in dom
  {
    var it := TrackedHasCell(Items(r.body, w.attrs), x);
    CellStands(r.body, w.attrs, it, x);
    hide TrackOf, Items, HasVar, TermsAre, PatternTerms, AllTuples;
    var c :| c in r.body && ((c.BPattern? && HasVar(PatternTerms(c, w.attrs), x)) || (c.BApply? && HasVar(c.args, x)));
    assert ClauseHolds(c, w, FactsInterp(Universe(dom, arity)), sigma);
    if c.BPattern? {
      var d :| d in w.datoms && TermsAre(PatternTerms(c, w.attrs), sigma, d);
      BoundValue(PatternTerms(c, w.attrs), sigma, d, x, dom);
    } else {
      var u: Tuple :| (c.name, u) in Universe(dom, arity) && TermsAre(c.args, sigma, u);
      AllTuplesIff(dom, arity[c.name], u);
      BoundValue(c.args, sigma, u, x, dom);
    }
  }

  lemma {:induction false} DerivedInUniverse(rules: seq<Rule>, w: World, arity: map<Name, nat>, dom: set<Val>,
                                             r: Rule, t: Tuple)
    requires RulesAccepted(rules, w.attrs, arity) && Covers(dom, rules, w) && r in rules
    requires Derives(r, w, FactsInterp(Universe(dom, arity)), t)
    ensures (r.name, t) in Universe(dom, arity)
  {
    var first := TrackOf(Items(r.body, w.attrs)).first;
    assert RuleAccepted(r, w.attrs, arity) && HeadAccepted(r.head, first);
    hide TrackOf, Items, BodyAccepted, BodyHolds;
    var sigma: Sigma :| BodyHolds(r.body, w, FactsInterp(Universe(dom, arity)), sigma) && TermsAre(r.head, sigma, t);
    forall i | 0 <= i < |t| ensures t[i] in dom {
      assert r.head[i] in r.head && TermIs(r.head[i], sigma, t[i]);
      if r.head[i].TVar? {
        VarValue(r, w, arity, dom, sigma, r.head[i].x);
      }
    }
    AllTuplesIff(dom, arity[r.name], t);
  }

  /** Accepted rules are range-restricted: over a domain that covers the data, nothing
      leads out of the finite universe. */
  lemma {:induction false} UniverseBounds(rules: seq<Rule>, w: World, arity: map<Name, nat>, dom: set<Val>)
    requires RulesAccepted(rules, w.attrs, arity) && Covers(dom, rules, w)
    ensures Bounds(rules, w, Universe(dom, arity))
  {
    hide RulesAccepted, Covers, Derives;
    forall r, t | r in rules && Derives(r, w, FactsInterp(Universe(dom, arity)), t)
      ensures (r.name, t) in Universe(dom, arity) {
      DerivedInUniverse(rules, w, arity, dom, r, t);
    }
  }

  /** With one delta variant per rule name that a body applies, the loop ends with exactly
      the least model, if no body applies the same name twice. */
  lemma {:induction false} SemiNaiveReachesLeast(rules: seq<Rule>, w: World, arity: map<Name, nat>, dom: set<Val>)
    requires RulesAccepted(rules, w.attrs, arity) && Covers(dom, rules, w) && AllApplyOnce(rules)
    ensures forall n, t :: (n, t) in SemiNaiveResult(rules, w, Universe(dom, arity)) <==> Least(rules, w, n, t)
  {
    var U := Universe(dom, arity);
    hide RulesAccepted, Covers, AllApplyOnce, Universe, Bounds, Least, LoopInv, BaseFacts, Loop;
    UniverseBounds(rules, w, arity, dom);
    BaseStarts(rules, w, U);
    LoopReaches(rules, w, U, BaseFacts(rules, w, U), BaseFacts(rules, w, U));
  }

  // ---------------------------------------------------------------------
  // A body that applies one name twice
  // ---------------------------------------------------------------------

  const PATH: Name := [112]
  const EDGE: Bytes := [101]
  const X: RVar := [120]
  const Y: RVar := [121]
  const Z: RVar := [122]

  /** path(x, y) :- edge(x, y).  path(x, z) :- path(x, y), path(y, z). */
  function EdgeRule(): Rule {
    Rule(PATH, [TVar(X), TVar(Y)], [BPattern(TVar(X), AIdent(EDGE), TVar(Y), TBlank)])
  }

  function PathRule(): Rule {
    Rule(PATH, [TVar(X), TVar(Z)], [BApply(PATH, [TVar(X), TVar(Y)]), BApply(PATH, [TVar(Y), TVar(Z)])])
  }

  /** A chain of three edges. */
  function Chain(): World {
    World(map[EDGE := 9], {[1, 9, 2, 0], [2, 9, 3, 0], [3, 9, 4, 0]}, (fn: Bytes, args: seq<Option<Val>>) => false)
  }

  lemma {:induction false} EdgeDerives(I: Interp, x: Val, y: Val)
    requires [x, 9, y, 0] in Chain().datoms
    ensures Derives(EdgeRule(), Chain(), I, [x, y])
  {
    var sigma: Sigma := map[X := x, Y := y];
    var c := EdgeRule().body[0];
    assert TermsAre(PatternTerms(c, Chain().attrs), sigma, [x, 9, y, 0]);
    assert BodyHolds(EdgeRule().body, Chain(), I, sigma) && TermsAre(EdgeRule().head, sigma, [x, y]);
  }

  lemma {:induction false} EdgeDerived(I: Interp, t: Tuple)
    requires Derives(EdgeRule(), Chain(), I, t)
    ensures t == [1, 2] || t == [2, 3] || t == [3, 4]
  {
    var sigma: Sigma :| BodyHolds(EdgeRule().body, Chain(), I, sigma) && TermsAre(EdgeRule().head, sigma, t);
    var c := EdgeRule().body[0];
    assert c in EdgeRule().body && ClauseHolds(c, Chain(), I, sigma);
    var d :| d in Chain().datoms && TermsAre(PatternTerms(c, Chain().attrs), sigma, d);
    assert TermIs(EdgeRule().head[0], sigma, t[0]) && TermIs(EdgeRule().head[1], sigma, t[1]);
    assert TermIs(PatternTerms(c, Chain().attrs)[0], sigma, d[0])
      && TermIs(PatternTerms(c, Chain().attrs)[2], sigma, d[2]);
    assert t == [d[0], d[2]];
  }

  lemma {:induction false} PathDerives(I: Interp, x: Val, y: Val, z: Val)
    requires I(PATH, [x, y]) && I(PATH, [y, z])
    ensures Derives(PathRule(), Chain(), I, [x, z])
  {
    var sigma: Sigma := map[X := x, Y := y, Z := z];
    var body := PathRule().body;
    assert TermsAre(body[0].args, sigma, [x, y]) && TermsAre(body[1].args, sigma, [y, z]);
    assert ClauseHolds(body[0], Chain(), I, sigma) && ClauseHolds(body[1], Chain(), I, sigma);
    assert BodyHolds(body, Chain(), I, sigma) && TermsAre(PathRule().head, sigma, [x, z]);
  }

  lemma {:induction false} PathDerived(I: Interp, t: Tuple) returns (y: Val)
    requires Derives(PathRule(), Chain(), I, t)
    ensures |t| == 2 && I(PATH, [t[0], y]) && I(PATH, [y, t[1]])
  {
    var sigma: Sigma :| BodyHolds(PathRule().body, Chain(), I, sigma) && TermsAre(PathRule().head, sigma, t);
    var a, b := PathRule().body[0], PathRule().body[1];
    assert a in PathRule().body && b in PathRule().body;
    assert ClauseHolds(a, Chain(), I, sigma) && ClauseHolds(b, Chain(), I, sigma);
    var u: Tuple :| I(PATH, u) && TermsAre(a.args, sigma, u);
    var v: Tuple :| I(PATH, v) && TermsAre(b.args, sigma, v);
    assert TermIs(PathRule().head[0], sigma, t[0]) && TermIs(PathRule().head[1], sigma, t[1]);
    assert TermIs(a.args[0], sigma, u[0]) && TermIs(a.args[1], sigma, u[1]) && TermIs(b.args[0], sigma, v[0])
      && TermIs(b.args[1], sigma, v[1]);
    y := u[1];
    assert u == [t[0], y] && v == [y, t[1]];
  }

  /** The chain's ends are connected ... */
  lemma {:induction false} ChainEnds()
    ensures Least([EdgeRule(), PathRule()], Chain(), PATH, [1, 4])
  {
    var rules, I := [EdgeRule(), PathRule()], LeastInterp([EdgeRule(), PathRule()], Chain());
    assert rules[0] == EdgeRule() && rules[1] == PathRule();
    assert EdgeRule() in rules && PathRule() in rules;
    LeastIsModel(rules, Chain());
    hide Derives, Least, Chain;
    EdgeIsLeast(1, 2);
    EdgeIsLeast(2, 3);
    EdgeIsLeast(3, 4);
    PathDerives(I, 1, 2, 3);
    assert I(PATH, [1, 3]);
    PathDerives(I, 1, 3, 4);
  }

  lemma {:induction false} EdgeIsLeast(x: Val, y: Val)
    requires (x, y) == (1, 2) || (x, y) == (2, 3) || (x, y) == (3, 4)
    ensures LeastInterp([EdgeRule(), PathRule()], Chain())(PATH, [x, y])
  {
    var rules := [EdgeRule(), PathRule()];
    assert rules[0] == EdgeRule() && EdgeRule() in rules;
    LeastIsModel(rules, Chain());
    assert [x, 9, y, 0] in Chain().datoms;
    EdgeDerives(LeastInterp(rules, Chain()), x, y);
    hide Derives, Least, Chain;
  }

  lemma {:induction false} FoundByPath(F: Facts, D: Facts, f: (Name, Tuple)) returns (y: Val)
    requires Found([EdgeRule(), PathRule()], Chain(), F, D, f)
    ensures f.0 == PATH && |f.1| == 2 && (PATH, [f.1[0], y]) in D && (PATH, [y, f.1[1]]) in D
  {
    var rules := [EdgeRule(), PathRule()];
    hide Derives, Chain;
    var r, m :| r in rules && r.name == f.0 && AppliesRule(r.body, m)
      && Derives(r, Chain(), ReadingFacts(F, D, {m}), f.1);
    assert r == EdgeRule() ==> !AppliesRule(r.body, m);
    assert r == PathRule() && m == PATH;
    y := PathDerived(ReadingFacts(F, D, {m}), f.1);
  }

  /** ... but a loop that reads the new facts in both applications at once never joins a
      new path to an old one, and ends without that fact. */
  lemma {:induction false} TwiceAppliedMisses(U: Facts)
    ensures (PATH, [1, 4]) !in SemiNaiveResult([EdgeRule(), PathRule()], Chain(), U)
  {
    var rules, w := [EdgeRule(), PathRule()], Chain();
    var B := BaseFacts(rules, w, U);
    var N := NewFacts(rules, w, U, B, B);
    hide Derives, Chain, Found;
    forall f | f in B ensures f == (PATH, [1, 2]) || f == (PATH, [2, 3]) || f == (PATH, [3, 4]) {
      BaseIsEdge(f);
    }
    forall f | f in N ensures f == (PATH, [1, 3]) || f == (PATH, [2, 4]) {
      var y := FoundByPath(B, B, f);
      assert f.1 == [f.1[0], f.1[1]];
      PairsDiffer(f.1[0], y);
      PairsDiffer(y, f.1[1]);
    }
    forall f ensures f !in NewFacts(rules, w, U, B + N, N) {
      if f in NewFacts(rules, w, U, B + N, N) {
        var y := FoundByPath(B + N, N, f);
      }
    }
    assert NewFacts(rules, w, U, B + N, N) == {};
    assert Loop(rules, w, U, B + N, N) == B + N;
    assert SemiNaiveResult(rules, w, U) == Loop(rules, w, U, B, B);
    assert N == {} ==> B + N == B;
    assert SemiNaiveResult(rules, w, U) == B + N;
    PairsDiffer(1, 4);
  }

  lemma {:induction false} PairsDiffer(a: Val, b: Val)
    ensures forall c, d :: [a, b] == [c, d] <==> a == c && b == d
  {
    forall c, d ensures [a, b] == [c, d] <==> a == c && b == d {
      assert [a, b][0] == a && [a, b][1] == b && [c, d][0] == c && [c, d][1] == d;
    }
  }

  lemma {:induction false} BaseIsEdge(f: (Name, Tuple))
    requires FoundAtFirst([EdgeRule(), PathRule()], Chain(), f)
    ensures f == (PATH, [1, 2]) || f == (PATH, [2, 3]) || f == (PATH, [3, 4])
  {
    var rules := [EdgeRule(), PathRule()];
    hide Derives, Chain;
    var r :| r in rules && r.name == f.0 && (forall m :: !AppliesRule(r.body, m))
      && Derives(r, Chain(), FactsInterp({}), f.1);
    assert PathRule().body[0] in PathRule().body && AppliesRule(PathRule().body, PATH);
    assert r == EdgeRule();
    EdgeDerived(FactsInterp({}), f.1);
  }
}
