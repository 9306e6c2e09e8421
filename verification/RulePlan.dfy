/** The rule planner (query/recursive.go) as it runs. */
module RulePlan {
  import opened Prelude
  import opened Rules
  import opened RuleMeaning
  import opened Fixpoint

  /** varTracker: the first place of each variable, and a join for every later one. */
  class VarTracker {
    var firstRef: map<RVar, Ref>
    var joins: seq<Cond>

    constructor ()
      ensures firstRef == map[] && joins == []
    {
      firstRef, joins := map[], [];
    }

    method Record(x: RVar, r: Ref)
      modifies this
      ensures firstRef == (if x in old(firstRef) then old(firstRef) else old(firstRef)[x := r])
      ensures joins == old(joins) + (if x in old(firstRef) then [CEq(old(firstRef)[x], ORef(r))] else [])
    {
      if x in firstRef {
        joins := joins + [CEq(firstRef[x], ORef(r))];
      } else {
        firstRef := firstRef[x := r];
      }
    }

    function Resolve(x: RVar): (r: Option<Ref>)
      reads this
      ensures r.Some? <==> x in firstRef
    {
      if x in firstRef then Some(firstRef[x]) else None
    }
  }

  /** ruleBodyToSQL in progress. */
  class BodyWriter {
    const vt: VarTracker
    var where: seq<Cond>
    var params: seq<Option<Val>>

    constructor ()
      ensures fresh(vt) && State() == NOTHING
    {
      vt := new VarTracker();
      where, params := [], [];
    }

    ghost function State(): Track
      reads this, vt
    {
      Track(vt.firstRef, vt.joins, where, params)
    }

    /** One position: a variable is recorded, a constant becomes a condition. */
    method Bind(t: Term, r: Ref)
      modifies this, vt
      ensures State() == Tracked(old(State()), ICell(t, r))
    {
      match t
      case TVar(x) => vt.Record(x, r);
      case TConst(c) => where, params := where + [CEq(r, OHole)], params + [Some(c)];
      case TBlank =>
    }

    /** The operands of an expression and its constants; every variable must have been
        seen. */
    method ExprParts(args: seq<Term>) returns (r: Result<(seq<ROperand>, seq<Option<Val>>), RuleError>)
      ensures r == if ExprBound(args, vt.firstRef) then Ok((ExprOperands(args, vt.firstRef), ExprParams(args)))
              else Err(UnresolvedVariable)
    {
      hide ExprOperands, ExprParams;
      var os, ps := [], [];
      NoParts(args, vt.firstRef);
      for i := 0 to |args|
        invariant os == ExprOperands(args[..i], vt.firstRef) && ps == ExprParams(args[..i])
        invariant forall t :: t in args[..i] && t.TVar? ==> t.x in vt.firstRef
      {
        PartsSnoc(args, i, vt.firstRef);
        match args[i]
        case TVar(x) =>
          var ref := vt.Resolve(x);
          if ref.None? {
            assert args[i] in args;
            return Err(UnresolvedVariable);
          }
          os := os + [ORef(ref.value)];
        case TConst(c) => os, ps := os + [OHole], ps + [Some(c)];
        case TBlank => os, ps := os + [OHole], ps + [None];
      }
      assert args[..|args|] == args;
      r := Ok((os, ps));
    }

    /** exprClauseToSQL. */
    method AddExpr(fn: Bytes, args: seq<Term>) returns (r: Result<(), RuleError>)
      modifies this
      ensures r == if ExprBound(args, vt.firstRef) then Ok(()) else Err(UnresolvedVariable)
      ensures State() == if r.Ok? then Tracked(old(State()), IExpr(fn, args)) else old(State())
    {
      hide ExprBound, ExprOperands, ExprParams;
      var e := ExprParts(args);
      if e.Err? {
        return Err(e.error);
      }
      where, params := where + [CExpr(fn, e.value.0)], params + e.value.1;
      r := Ok(());
    }

    /** A pattern's four positions; the attribute comes first. */
    method AddPattern(c: BodyClause, table: nat, attrs: map<Bytes, Val>, ghost before: seq<Item>)
                      returns (r: Result<(), RuleError>)
      requires c.BPattern? && State() == TrackOf(before)
      modifies this, vt
      ensures r.Ok? <==> c.a != AOther && (c.a.AIdent? ==> c.a.ident in attrs)
      ensures r.Ok? ==> State() == TrackOf(before + ClauseItems(c, table, attrs))
    {
      hide TrackOf, Tracked;
      if c.a == AOther {
        return Err(AttributeNotString);
      }
      if c.a.AIdent? && c.a.ident !in attrs {
        return Err(UnknownAttribute);
      }
      var a := AttrAsTerm(c.a, attrs);
      var i1, i2, i3, i4 := ICell(a, Ref(table, 1)), ICell(c.e, Ref(table, 0)), ICell(c.v, Ref(table, 2)),
        ICell(c.tx, Ref(table, 3));
      Bind(a, Ref(table, 1));
      TrackSnoc(before, i1);
      Bind(c.e, Ref(table, 0));
      TrackSnoc(before + [i1], i2);
      Bind(c.v, Ref(table, 2));
      TrackSnoc(before + [i1] + [i2], i3);
      Bind(c.tx, Ref(table, 3));
      TrackSnoc(before + [i1] + [i2] + [i3], i4);
      assert before + [i1] + [i2] + [i3] + [i4] == before + [i1, i2, i3, i4];
      r := Ok(());
    }

    method AddArgs(args: seq<Term>, table: nat, ghost before: seq<Item>)
      requires State() == TrackOf(before)
      modifies this, vt
      ensures State() == TrackOf(before + Cells(args, table))
    {
      hide TrackOf, Tracked;
      ghost var cells := Cells(args, table);
      assert before + cells[..0] == before;
      for i := 0 to |args|
        invariant State() == TrackOf(before + cells[..i])
      {
        Bind(args[i], Ref(table, i));
        TrackSnoc(before + cells[..i], cells[i]);
        assert before + cells[..i] + [cells[i]] == before + cells[..i + 1];
      }
      assert cells[..|args|] == cells;
    }
  }

  /** ruleBodyToSQL: the clauses in order, then the joins, then the head. */
  method RuleBodyToSQL(r: Rule, attrs: map<Bytes, Val>, arity: map<Name, nat>, useDelta: set<Name>)
                       returns (res: Result<Stmt, RuleError>)
    ensures res.Ok? <==> RuleAccepted(r, attrs, arity)
    ensures res.Ok? ==> res.value == Emitted(r, attrs, useDelta)
  {
    hide TrackOf, Tracked, Items, ClauseItems, Froms, ClauseAccepted, HeadAccepted, ExprOperands, ExprParams;
    var wr := new BodyWriter();
    var from := [];
    EmptyBody(attrs, useDelta);
    assert r.body[..0] == [];
    for i := 0 to |r.body|
      invariant fresh(wr) && fresh(wr.vt) && wr.State() == TrackOf(Items(r.body[..i], attrs))
      invariant from == Froms(r.body[..i], useDelta) && |from| == |Froms(r.body[..i], {})|
      invariant forall k :: 0 <= k < i
                  ==> ClauseAccepted(r.body[k], attrs, arity, TrackOf(Items(r.body[..k], attrs)).first)
    {
      var c, table := r.body[i], |from|;
      assert r.body[..i + 1] == r.body[..i] + [c];
      BodySnoc(r.body[..i], c, useDelta, attrs);
      BodySnoc(r.body[..i], c, {}, attrs);
      ghost var before := Items(r.body[..i], attrs);
      AcceptedWhen(c, attrs, arity, TrackOf(before).first, table, before);
      match c
      case BPattern(_, _, _, _) =>
        var e := wr.AddPattern(c, table, attrs, before);
        if e.Err? {
          return Err(e.error);
        }
        from := from + [SDatoms];
      case BApply(n, args) =>
        if n !in arity {
          return Err(UnknownRule);
        }
        if |args| != arity[n] {
          return Err(WrongArity);
        }
        from := from + [if n in useDelta then SDelta(n) else SRule(n)];
        wr.AddArgs(args, table, before);
      case BExpr(fn, args) =>
        var e := wr.AddExpr(fn, args);
        if e.Err? {
          return Err(e.error);
        }
      case BOther => return Err(UnsupportedClause);
    }
    assert r.body[..|r.body|] == r.body;
    var head := SelectHead(wr.vt, r.head);
    if head.Err? {
      return Err(head.error);
    }
    res := Ok(Stmt(r.name, head.value.0, from, wr.where + wr.vt.joins, wr.params + head.value.1));
  }

  lemma {:induction false} EmptyBody(attrs: map<Bytes, Val>, useDelta: set<Name>)
    ensures TrackOf(Items([], attrs)) == NOTHING && Froms([], useDelta) == [] && Froms([], {}) == []
  {
  }

  /** Acceptance of one clause, and what it adds. */
  lemma {:induction false} AcceptedWhen(c: BodyClause, attrs: map<Bytes, Val>, arity: map<Name, nat>, first: map<RVar,
                                        Ref>, table: nat, before: seq<Item>)
    ensures c.BPattern? ==> (ClauseAccepted(c, attrs, arity, first)
                             <==> c.a != AOther && (c.a.AIdent? ==> c.a.ident in attrs))
    ensures c.BApply? ==> (ClauseAccepted(c, attrs, arity, first) <==> c.name in arity && |c.args| == arity[c.name])
    ensures c.BApply? ==> ClauseItems(c, table, attrs) == Cells(c.args, table)
    ensures c.BExpr? ==> (ClauseAccepted(c, attrs, arity, first) <==> ExprBound(c.args, first))
    ensures c.BExpr? ==> TrackOf(before + ClauseItems(c, table, attrs)) == Tracked(TrackOf(before), IExpr(c.fn, c.args))
    ensures c.BOther? ==> !ClauseAccepted(c, attrs, arity, first)
  {
    if c.BExpr? {
      TrackSnoc(before, IExpr(c.fn, c.args));
    }
    hide TrackOf, Tracked;
  }

  /** The SELECT list, and the constants in it. */
  method SelectHead(vt: VarTracker, head: seq<Term>) returns (r: Result<(seq<ROperand>, seq<Option<Val>>), RuleError>)
    ensures r.Ok? <==> HeadAccepted(head, vt.firstRef)
    ensures r.Ok? ==> r.value == (ExprOperands(head, vt.firstRef), ExprParams(head))
  {
    hide ExprOperands, ExprParams;
    var os, ps := [], [];
    NoParts(head, vt.firstRef);
    for i := 0 to |head|
      invariant os == ExprOperands(head[..i], vt.firstRef) && ps == ExprParams(head[..i])
      invariant forall t :: t in head[..i] ==> t != TBlank && (t.TVar? ==> t.x in vt.firstRef)
    {
      PartsSnoc(head, i, vt.firstRef);
      assert head[i] in head;
      match head[i]
      case TVar(x) =>
        var ref := vt.Resolve(x);
        if ref.None? {
          return Err(UnboundHead);
        }
        os := os + [ORef(ref.value)];
      case TConst(c) => os, ps := os + [OHole], ps + [Some(c)];
      case TBlank => return Err(BlankHead);
    }
    assert head[..|head|] == head;
    r := Ok((os, ps));
  }

  lemma {:induction false} NoParts(ts: seq<Term>, first: map<RVar, Ref>)
    ensures ExprOperands(ts[..0], first) == [] && ExprParams(ts[..0]) == []
  {
  }

  lemma {:induction false} PartsSnoc(ts: seq<Term>, i: nat, first: map<RVar, Ref>)
    requires i < |ts|
    ensures ExprOperands(ts[..i + 1], first) == ExprOperands(ts[..i], first) + [ExprOperand(ts[i], first)]
    ensures ExprParams(ts[..i + 1]) == ExprParams(ts[..i]) + ParamOf(ts[i])
  {
    hide ExprOperand;
    assert ts[..i + 1] == ts[..i] + [ts[i]];
    ParamsConcat(ts[..i], ts[i]);
  }

  lemma {:induction false} ParamsConcat(ts: seq<Term>, t: Term)
    ensures ExprParams(ts + [t]) == ExprParams(ts) + ParamOf(t)
  {
    if ts == [] {
      assert ts + [t] == [t] + ts;
      ParamsCons(t, ts);
    } else {
      assert ts + [t] == [ts[0]] + (ts[1..] + [t]);
      ParamsCons(ts[0], ts[1..] + [t]);
      ParamsConcat(ts[1..], t);
    }
  }

  // ---------------------------------------------------------------------
  // PlanRecursive
  // ---------------------------------------------------------------------

  /** The temporary tables, BaseSQL, and DeltaSQL: the clears, then the variants. */
  datatype Plan = Plan(tables: seq<Name>, base: seq<PlanStmt>, clears: seq<PlanStmt>, variants: seq<PlanStmt>,
                       resultTable: Name, columns: nat)

  function NamesOf(rules: seq<Rule>): set<Name> {
    set r | r in rules :: r.name
  }

  /** The length of the first head of each name. */
  function ArityOf(rules: seq<Rule>): map<Name, nat> {
    if rules == [] then map[]
    else
      var pre, r := ArityOf(rules[..|rules| - 1]), rules[|rules| - 1];
      if r.name in pre then pre else pre[r.name := |r.head|]
  }

  ghost predicate Consistent(rules: seq<Rule>) {
    forall r :: r in rules ==> r.name in ArityOf(rules) && |r.head| == ArityOf(rules)[r.name]
  }

  ghost predicate Plannable(rules: seq<Rule>, attrs: map<Bytes, Val>) {
    rules != [] && Consistent(rules) && forall r :: r in rules ==> RuleAccepted(r, attrs, ArityOf(rules))
  }

  predicate IsRecursive(r: Rule, names: set<Name>) {
    exists c :: c in r.body && c.BApply? && c.name in names
  }

  function BaseRules(rules: seq<Rule>, names: set<Name>): seq<Rule> {
    if rules == [] then []
    else BaseRules(rules[..|rules| - 1], names) + if IsRecursive(rules[|rules| - 1], names) then []
      else [rules[|rules| - 1]]
  }

  function BaseInserts(rules: seq<Rule>, attrs: map<Bytes, Val>): seq<PlanStmt> {
    if rules == [] then []
    else BaseInserts(rules[..|rules| - 1], attrs) + [Insert(Emitted(rules[|rules| - 1], attrs, {}))]
  }

  /** A delta variant: a recursive rule with one of the names its body applies. */
  ghost predicate VariantOf(p: PlanStmt, r: Rule, names: set<Name>, attrs: map<Bytes, Val>) {
    exists m :: m in names && AppliesRule(r.body, m) && p == Insert(Emitted(r, attrs, {m}))
  }

  /** Base rules are evaluated first and seed the deltas; an iteration clears every delta
      and runs every variant. The order of names is that of a Go map, so any. */
  ghost predicate IsPlan(plan: Plan, rules: seq<Rule>, attrs: map<Bytes, Val>) {
    var names := NamesOf(rules);
    var inserts := BaseInserts(BaseRules(rules, names), attrs);
    && (forall n :: n in plan.tables <==> n in names)
    && |plan.base| >= |inserts| && plan.base[..|inserts|] == inserts
    && (forall p :: p in plan.base[|inserts|..] <==> p.Seed? && p.n in names)
    && (forall p :: p in plan.clears <==> p.Clear? && p.n in names)
    && (forall p :: p in plan.variants <==> exists r :: r in rules && VariantOf(p, r, names, attrs))
    && rules != [] && plan.resultTable == rules[0].name && plan.columns == |rules[0].head|
  }

  /** What the planner emits is an iteration in the sense of Fixpoint, of statements for
      the given rules. */
  lemma {:induction false} PlansAreRounds(plan: Plan, rules: seq<Rule>, attrs: map<Bytes, Val>)
    requires IsPlan(plan, rules, attrs)
    ensures DeltaRound(plan.clears, plan.variants, NamesOf(rules), attrs)
    ensures forall p :: p in plan.base || p in plan.clears || p in plan.variants ==> EmittedFor(p, rules, attrs)
  {
    var names := NamesOf(rules);
    var inserts := BaseInserts(BaseRules(rules, names), attrs);
    hide NamesOf, AppliesRule, Emitted, BaseRules, BaseInserts;
    forall p | p in plan.variants ensures IsVariant(p, names, attrs) && EmittedFor(p, rules, attrs) {
      var r :| r in rules && VariantOf(p, r, names, attrs);
    }
    forall p | p in plan.base ensures EmittedFor(p, rules, attrs) {
      if p in inserts {
        BaseInsertsEmitted(rules, names, attrs, p);
      } else {
        assert plan.base == inserts + plan.base[|inserts|..];
      }
    }
    forall m | m in names ensures Clear(m) in plan.clears {
      assert Clear(m).Clear? && Clear(m).n in names;
    }
  }

  lemma {:induction false} BaseInsertsEmitted(rules: seq<Rule>, names: set<Name>, attrs: map<Bytes, Val>, p: PlanStmt)
    requires p in BaseInserts(BaseRules(rules, names), attrs)
    ensures EmittedFor(p, rules, attrs)
  {
    hide Emitted;
    var r := InsertedRule(BaseRules(rules, names), attrs, p);
    BaseRulesIn(rules, names, r);
  }

  lemma {:induction false} InsertedRule(rules: seq<Rule>, attrs: map<Bytes, Val>, p: PlanStmt) returns (r: Rule)
    requires p in BaseInserts(rules, attrs)
    ensures r in rules && p == Insert(Emitted(r, attrs, {}))
  {
    hide Emitted;
    var n := |rules| - 1;
    if p == Insert(Emitted(rules[n], attrs, {})) {
      r := rules[n];
    } else {
      r := InsertedRule(rules[..n], attrs, p);
    }
  }

  lemma {:induction false} BaseRulesIn(rules: seq<Rule>, names: set<Name>, r: Rule)
    requires r in BaseRules(rules, names)
    ensures r in rules
  {
    hide IsRecursive;
    var n := |rules| - 1;
    if r in BaseRules(rules[..n], names) {
      BaseRulesIn(rules[..n], names, r);
    }
  }

  /** ruleIsRecursive. */
  method RuleIsRecursive(r: Rule, names: set<Name>) returns (b: bool)
    ensures b <==> IsRecursive(r, names)
  {
    for i := 0 to |r.body|
      invariant forall c :: c in r.body[..i] && c.BApply? ==> c.name !in names
    {
      if r.body[i].BApply? && r.body[i].name in names {
        assert r.body[i] in r.body;
        return true;
      }
    }
    assert r.body[..|r.body|] == r.body;
    return false;
  }

  /** bodyRuleRefs. */
  method BodyRuleRefs(r: Rule, names: set<Name>) returns (refs: set<Name>)
    ensures forall m :: m in refs <==> m in names && AppliesRule(r.body, m)
  {
    refs := {};
    for i := 0 to |r.body|
      invariant forall m :: m in refs <==> m in names && AppliesRule(r.body[..i], m)
    {
      var c := r.body[i];
      assert r.body[..i + 1] == r.body[..i] + [c];
      assert forall m :: AppliesRule(r.body[..i + 1], m)
               <==> AppliesRule(r.body[..i], m) || (c.BApply? && c.name == m) by {
        forall m ensures AppliesRule(r.body[..i + 1], m)
          <==> AppliesRule(r.body[..i], m) || (c.BApply? && c.name == m) {
          AppliesSnoc(r.body[..i], c, m);
        }
      }
      if c.BApply? && c.name in names {
        refs := refs + {c.name};
      }
    }
    assert r.body[..|r.body|] == r.body;
  }

  lemma {:induction false} AppliesSnoc(body: seq<BodyClause>, c: BodyClause, m: Name)
    ensures AppliesRule(body + [c], m) <==> AppliesRule(body, m) || (c.BApply? && c.name == m)
  {
    assert forall d :: d in body + [c] <==> d in body || d == c;
  }

  lemma {:induction false} ArityKeeps(rules: seq<Rule>, i: nat)
    requires i <= |rules|
    ensures forall n :: n in ArityOf(rules[..i]) ==> n in ArityOf(rules) && ArityOf(rules)[n] == ArityOf(rules[..i])[n]
    decreases |rules|
  {
    if i < |rules| {
      ArityKeeps(rules[..|rules| - 1], i);
      assert rules[..|rules| - 1][..i] == rules[..i];
    } else {
      assert rules[..i] == rules;
    }
  }

  /** Each name's arity, and an error when two heads differ in length. */
  method Arities(rules: seq<Rule>) returns (res: Result<map<Name, nat>, RuleError>)
    ensures res.Ok? <==> Consistent(rules)
    ensures res.Ok? ==> res.value == ArityOf(rules)
  {
    var arity: map<Name, nat> := map[];
    for i := 0 to |rules|
      invariant arity == ArityOf(rules[..i])
      invariant forall r :: r in rules[..i] ==> r.name in arity && |r.head| == arity[r.name]
    {
      var r := rules[i];
      assert rules[..i + 1][..i] == rules[..i];
      if r.name in arity {
        if arity[r.name] != |r.head| {
          ArityKeeps(rules, i);
          assert r in rules;
          return Err(InconsistentArity);
        }
      } else {
        arity := arity[r.name := |r.head|];
      }
    }
    assert rules[..|rules|] == rules;
    res := Ok(arity);
  }

  lemma {:induction false} ArityNames(rules: seq<Rule>)
    ensures ArityOf(rules).Keys == NamesOf(rules)
  {
    if rules != [] {
      var n := |rules| - 1;
      ArityNames(rules[..n]);
      assert rules == rules[..n] + [rules[n]];
      assert NamesOf(rules) == NamesOf(rules[..n]) + {rules[n].name};
    }
  }

  /** One statement of each kind per name, the names in any order. */
  method PerName(names: set<Name>) returns (listed: seq<Name>, seeds: seq<PlanStmt>, clears: seq<PlanStmt>)
    ensures forall n :: n in listed <==> n in names
    ensures forall p :: p in seeds <==> p.Seed? && p.n in names
    ensures forall p :: p in clears <==> p.Clear? && p.n in names
  {
    listed, seeds, clears := [], [], [];
    var left := names;
    while left != {}
      invariant left <= names && forall n :: n in listed <==> n in names - left
      invariant forall p :: p in seeds <==> p.Seed? && p.n in names - left
      invariant forall p :: p in clears <==> p.Clear? && p.n in names - left
      decreases |left|
    {
      var n :| n in left;
      left := left - {n};
      listed, seeds, clears := listed + [n], seeds + [Seed(n)], clears + [Clear(n)];
    }
  }

  /** The delta variants of one recursive rule. */
  method VariantsOf(r: Rule, names: set<Name>, attrs: map<Bytes, Val>, arity: map<Name, nat>)
                    returns (res: Result<seq<PlanStmt>, RuleError>)
    requires IsRecursive(r, names)
    ensures res.Ok? <==> RuleAccepted(r, attrs, arity)
    ensures res.Ok? ==> forall p :: p in res.value <==> VariantOf(p, r, names, attrs)
  {
    hide RuleAccepted, Emitted;
    var refs := BodyRuleRefs(r, names);
    var c :| c in r.body && c.BApply? && c.name in names;
    assert AppliesRule(r.body, c.name);
    hide AppliesRule;
    var left, out := refs, [];
    while left != {}
      invariant left <= refs && (left == refs || RuleAccepted(r, attrs, arity))
      invariant forall p :: p in out <==> exists m :: m in refs - left && p == Insert(Emitted(r, attrs, {m}))
      decreases |left|
    {
      var m :| m in left;
      left := left - {m};
      var s := RuleBodyToSQL(r, attrs, arity, {m});
      if s.Err? {
        return Err(s.error);
      }
      out := out + [Insert(s.value)];
    }
    res := Ok(out);
  }

  /** The base inserts, and the variants of the recursive rules. */
  method RuleStatements(rules: seq<Rule>, attrs: map<Bytes, Val>, arity: map<Name, nat>, names: set<Name>)
    returns (res: Result<(seq<PlanStmt>, seq<PlanStmt>), RuleError>)
    ensures res.Ok? <==> forall r :: r in rules ==> RuleAccepted(r, attrs, arity)
    ensures res.Ok? ==> res.value.0 == BaseInserts(BaseRules(rules, names), attrs)
    ensures res.Ok? ==> forall p :: p in res.value.1 <==> exists r :: r in rules && VariantOf(p, r, names, attrs)
  {
    hide RuleAccepted, IsRecursive, VariantOf, Emitted, BaseInserts, BaseRules;
    var inserts, variants := [], [];
    assert rules[..0] == [];
    NoInserts(names, attrs);
    for i := 0 to |rules|
      invariant inserts == BaseInserts(BaseRules(rules[..i], names), attrs)
      invariant forall p :: p in variants <==> exists r :: r in rules[..i] && VariantOf(p, r, names, attrs)
      invariant forall r :: r in rules[..i] ==> RuleAccepted(r, attrs, arity)
    {
      var r := rules[i];
      var rec := RuleIsRecursive(r, names);
      PlanSnoc(rules[..i], r, names, attrs);
      assert rules[..i + 1] == rules[..i] + [r] && r in rules;
      if rec {
        var vs := VariantsOf(r, names, attrs, arity);
        if vs.Err? {
          return Err(vs.error);
        }
        variants := variants + vs.value;
      } else {
        var s := RuleBodyToSQL(r, attrs, arity, {});
        if s.Err? {
          return Err(s.error);
        }
        inserts := inserts + [Insert(s.value)];
        NoVariant(r, names, attrs);
      }
    }
    assert rules[..|rules|] == rules;
    res := Ok((inserts, variants));
  }

  lemma {:induction false} NoInserts(names: set<Name>, attrs: map<Bytes, Val>)
    ensures BaseInserts(BaseRules([], names), attrs) == []
  {
  }

  /** PlanRecursive. */
  method PlanRecursive(rules: seq<Rule>, attrs: map<Bytes, Val>) returns (res: Result<Plan, RuleError>)
    ensures res.Ok? <==> Plannable(rules, attrs)
    ensures res.Ok? ==> IsPlan(res.value, rules, attrs)
  {
    if rules == [] {
      return Err(NoRules);
    }
    var a := Arities(rules);
    if a.Err? {
      return Err(a.error);
    }
    ArityNames(rules);
    assert rules[0] in rules;
    assert |rules[0].head| == a.value[rules[0].name];
    hide ArityOf, NamesOf, RuleAccepted, VariantOf, BaseInserts, BaseRules, Consistent;
    var listed, seeds, clears := PerName(a.value.Keys);
    var st := RuleStatements(rules, attrs, a.value, a.value.Keys);
    if st.Err? {
      return Err(st.error);
    }
    PlanIs(rules, attrs, listed, st.value.0, seeds, clears, st.value.1);
    hide IsPlan;
    res := Ok(Plan(listed, st.value.0 + seeds, clears, st.value.1, rules[0].name, a.value[rules[0].name]));
  }

  lemma {:induction false} PlanIs(rules: seq<Rule>, attrs: map<Bytes, Val>, listed: seq<Name>, inserts: seq<PlanStmt>,
                                  seeds: seq<PlanStmt>,
                                  clears: seq<PlanStmt>, variants: seq<PlanStmt>)
    requires rules != [] && forall n :: n in listed <==> n in NamesOf(rules)
    requires inserts == BaseInserts(BaseRules(rules, NamesOf(rules)), attrs)
    requires forall p :: p in seeds <==> p.Seed? && p.n in NamesOf(rules)
    requires forall p :: p in clears <==> p.Clear? && p.n in NamesOf(rules)
    requires forall p :: p in variants <==> exists r :: r in rules && VariantOf(p, r, NamesOf(rules), attrs)
    ensures IsPlan(Plan(listed, inserts + seeds, clears, variants, rules[0].name, |rules[0].head|), rules, attrs)
  {
    hide NamesOf, VariantOf, BaseInserts, BaseRules;
    assert (inserts + seeds)[..|inserts|] == inserts && (inserts + seeds)[|inserts|..] == seeds;
  }

  lemma {:induction false} PlanSnoc(rules: seq<Rule>, r: Rule, names: set<Name>, attrs: map<Bytes, Val>)
    ensures BaseInserts(BaseRules(rules + [r], names), attrs)
         == BaseInserts(BaseRules(rules, names), attrs) + if IsRecursive(r, names) then []
           else [Insert(Emitted(r, attrs, {}))]
  {
    hide IsRecursive, Emitted;
    var b := BaseRules(rules, names);
    assert (rules + [r])[..|rules|] == rules;
    assert (b + [r])[..|b|] == b;
    assert b + [] == b;
  }

  lemma {:induction false} NoVariant(r: Rule, names: set<Name>, attrs: map<Bytes, Val>)
    requires !IsRecursive(r, names)
    ensures forall p :: !VariantOf(p, r, names, attrs)
  {
  }
}
