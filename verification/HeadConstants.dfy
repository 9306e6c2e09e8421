/** Constants in a rule's head. ruleBodyToSQL appends their parameters after those of the
    body, while their placeholders come first in the text (query/recursive.go:312-346), so
    the statement deals the constants out in another order than the rule has them. */
module HeadConstants {
  import opened Prelude
  import opened Rules
  import opened RuleMeaning

  // ---------------------------------------------------------------------
  // A rule with other constants
  // ---------------------------------------------------------------------

  function First(ps: seq<Option<Val>>): Option<Val> {
    if ps == [] then None else ps[0]
  }

  /** The arguments of an expression, their constants taken from ps instead. */
  function DealtArgs(ts: seq<Term>, sigma: Sigma, ps: seq<Option<Val>>): seq<Option<Val>> {
    if ts == [] then []
    else if ts[0].TVar? then [ArgOf(ts[0], sigma)] + DealtArgs(ts[1..], sigma, ps)
    else [First(ps)] + DealtArgs(ts[1..], sigma, Drop(ps, 1))
  }

  /** An item holds, its constants taken from ps instead. */
  predicate DealtItem(it: Item, ps: seq<Option<Val>>, w: World, rows: seq<Tuple>, sigma: Sigma) {
    match it
    case ICell(TConst(_), r) => RefVal(rows, r).Some? && RefVal(rows, r) == First(ps)
    case ICell(t, r) => ItemHolds(it, w, rows, sigma)
    case IExpr(fn, args) => w.holds(fn, DealtArgs(args, sigma, ps))
  }

  predicate DealtItems(items: seq<Item>, ps: seq<Option<Val>>, w: World, rows: seq<Tuple>, sigma: Sigma)
    requires |ps| == |TrackOf(items).params|
  {
    if items == [] then true
    else
      var pre, it := items[..|items| - 1], items[|items| - 1];
      var k := |TrackOf(pre).params|;
      DealtItems(pre, ps[..k], w, rows, sigma) && DealtItem(it, ps[k..], w, rows, sigma)
  }

  // ---------------------------------------------------------------------
  // The gathered conditions with other parameters
  // ---------------------------------------------------------------------

  predicate DealtHolds(tr: Track, ps: seq<Option<Val>>, w: World, rows: seq<Tuple>) {
    CondsHold(tr.where, w, rows, ps) && CondsHold(tr.joins, w, rows, [])
  }

  lemma {:induction false} DealtVals(args: seq<Term>, tr: Track, rows: seq<Tuple>, ps: seq<Option<Val>>)
    requires FirstsIn(tr, rows) && ExprBound(args, tr.first)
    ensures OperandVals(ExprOperands(args, tr.first), rows, ps) == DealtArgs(args, SigmaOf(tr, rows), ps)
    ensures HolesIn(ExprOperands(args, tr.first)) == |ExprParams(args)|
    decreases |args|
  {
    if args != [] {
      var t, ts := args[0], args[1..];
      assert args == [t] + ts && t in args;
      assert forall u :: u in ts ==> u in args;
      DealtVals(ts, tr, rows, if t.TVar? then ps else Drop(ps, 1));
      OperandsCons(t, ts, tr.first);
      ParamsCons(t, ts);
      ValsCons(ExprOperand(t, tr.first), ExprOperands(ts, tr.first), rows, ps);
      assert Drop(ps, 0) == ps;
      hide RefVal, OperandVals, ExprOperands, HolesIn;
    }
  }

  lemma {:induction false} DealtSnoc(tr: Track, c: Cond, p: seq<Option<Val>>, q: seq<Option<Val>>, w: World,
                                     rows: seq<Tuple>)
    requires Counted(tr) && |p| == |tr.params|
    ensures CondsHold(tr.where + [c], w, rows, p + q) <==> CondsHold(tr.where, w, rows, p) && CondHolds(c, w, rows, q)
  {
    hide CondHoles, CondHolds, CondsHold, CondsHoles;
    CondsConcat(tr.where, [c], w, rows, p, q);
    OneCond(c, w, rows, q);
  }

  lemma {:induction false} JoinDealt(tr: Track, c: Cond, w: World, rows: seq<Tuple>)
    requires Counted(tr)
    ensures CondsHold(tr.joins + [c], w, rows, []) <==> CondsHold(tr.joins, w, rows, []) && CondHolds(c, w, rows, [])
  {
    hide CondHoles, CondHolds, CondsHold, CondsHoles;
    CondsConcat(tr.joins, [c], w, rows, [], []);
    var none: seq<Option<Val>> := [];
    assert none + none == none;
    OneCond(c, w, rows, []);
  }

  lemma {:induction false} ItemDealt(tr: Track, it: Item, p: seq<Option<Val>>, q: seq<Option<Val>>, w: World,
                                     rows: seq<Tuple>)
    requires Good(tr, rows) && |p| == |tr.params| && |p| + |q| == |Tracked(tr, it).params|
    requires if it.ICell? then RefVal(rows, it.r).Some? else ExprBound(it.args, tr.first)
    ensures var tr' := Tracked(tr, it);
            DealtHolds(tr', p + q, w, rows)
            <==> DealtHolds(tr, p, w, rows) && DealtItem(it, q, w, rows, SigmaOf(tr', rows))
  {
    hide RefVal, CondsHold, CondsHoles;
    match it
    case ICell(TBlank, r) => assert p + q == p;
    case ICell(TConst(c), r) => DealtSnoc(tr, CEq(r, OHole), p, q, w, rows);
    case ICell(TVar(x), r) =>
      assert p + q == p;
      if x in tr.first {
        JoinDealt(tr, CEq(tr.first[x], ORef(r)), w, rows);
      }
    case IExpr(fn, args) =>
      DealtVals(args, tr, rows, q);
      hide DealtArgs, ExprOperands, OperandVals;
      DealtSnoc(tr, CExpr(fn, ExprOperands(args, tr.first)), p, q, w, rows);
  }

  lemma {:induction false} SameArgs(ts: seq<Term>, sigma: Sigma, tau: Sigma, ps: seq<Option<Val>>)
    requires (forall t :: t in ts && t.TVar? ==> t.x in sigma) && Within(sigma, tau)
    ensures DealtArgs(ts, sigma, ps) == DealtArgs(ts, tau, ps)
    decreases |ts|
  {
    if ts != [] {
      assert ts[0] in ts && forall t :: t in ts[1..] ==> t in ts;
      SameArgs(ts[1..], sigma, tau, if ts[0].TVar? then ps else Drop(ps, 1));
    }
  }

  lemma {:induction false} SameDealtItem(it: Item, ps: seq<Option<Val>>, w: World, rows: seq<Tuple>, sigma: Sigma,
                                         tau: Sigma)
    requires VarsIn(it, sigma.Keys) && Within(sigma, tau)
    ensures DealtItem(it, ps, w, rows, sigma) <==> DealtItem(it, ps, w, rows, tau)
  {
    if it.IExpr? {
      SameArgs(it.args, sigma, tau, ps);
    }
    hide RefVal, DealtArgs;
  }

  lemma {:induction false} SameDealt(items: seq<Item>, ps: seq<Option<Val>>, w: World, rows: seq<Tuple>, sigma: Sigma,
                                     tau: Sigma)
    requires |ps| == |TrackOf(items).params| && AllVarsIn(items, sigma.Keys) && Within(sigma, tau)
    ensures DealtItems(items, ps, w, rows, sigma) <==> DealtItems(items, ps, w, rows, tau)
  {
    if items != [] {
      var pre, it := items[..|items| - 1], items[|items| - 1];
      var k := |TrackOf(pre).params|;
      assert it in items && forall i :: i in pre ==> i in items;
      hide DealtItem, Within, VarsIn;
      SameDealt(pre, ps[..k], w, rows, sigma, tau);
      SameDealtItem(it, ps[k..], w, rows, sigma, tau);
    }
  }

  /** Rows meet the gathered conditions with other parameters exactly when every item holds
      with its constants taken from these. */
  lemma {:induction false} TrackDealt(items: seq<Item>, ps: seq<Option<Val>>, w: World, rows: seq<Tuple>)
    requires CellsIn(items, rows) && ExprsBound(items) && |ps| == |TrackOf(items).params|
    ensures DealtHolds(TrackOf(items), ps, w, rows) <==> DealtItems(items, ps, w, rows, SigmaOf(TrackOf(items), rows))
  {
    if items != [] {
      var n := |items| - 1;
      var pre, it := items[..n], items[n];
      var tr, tr' := TrackOf(pre), TrackOf(items);
      var k := |tr.params|;
      assert tr' == Tracked(tr, it);
      BoundPrefix(items);
      assert it in items && forall i :: i in pre ==> i in items;
      TrackMeans(pre, w, rows);
      TrackItem(tr, it, w, rows);
      assert ps == ps[..k] + ps[k..];
      hide DealtHolds, DealtItem, ItemHolds, TrackHolds, Good, Tracked, Within, VarsIn, SigmaOf, ExprsBound, CellsIn,
        ItemsHold, AllVarsIn;
      TrackDealt(pre, ps[..k], w, rows);
      SameDealt(pre, ps[..k], w, rows, SigmaOf(tr, rows), SigmaOf(tr', rows));
      ItemDealt(tr, it, ps[..k], ps[k..], w, rows);
    }
  }

  /** With its own constants the rule means what it says. */
  lemma {:induction false} OwnConstants(items: seq<Item>, w: World, rows: seq<Tuple>)
    requires CellsIn(items, rows) && ExprsBound(items)
    ensures var tr := TrackOf(items); var sigma := SigmaOf(tr, rows);
            DealtItems(items, tr.params, w, rows, sigma) <==> ItemsHold(items, w, rows, sigma)
  {
    hide CellsIn, ExprsBound, TrackOf, SigmaOf, ItemsHold, DealtItems, CondsHold, CondsHoles, Good;
    TrackMeans(items, w, rows);
    TrackDealt(items, TrackOf(items).params, w, rows);
  }

  // ---------------------------------------------------------------------
  // What the statement inserts
  // ---------------------------------------------------------------------

  ghost predicate Fits(r: Rule, w: World, arity: map<Name, nat>, rule: Tables, delta: Tables) {
    RuleAccepted(r, w.attrs, arity) && WorldFits(w) && TablesFit(rule, arity) && TablesFit(delta, arity)
  }

  /** Rows satisfy the body and give the tuple, the head's constants taken from all
      parameters from the first on and the body's from those after them. */
  ghost predicate DealtRows(r: Rule, w: World, ps: seq<Option<Val>>, rows: seq<Tuple>, t: Tuple) {
    var items := Items(r.body, w.attrs);
    var sigma, rest := SigmaOf(TrackOf(items), rows), Drop(ps, |ExprParams(r.head)|);
    && |rest| == |TrackOf(items).params|
    && DealtItems(items, rest, w, rows, sigma) && IsTuple(DealtArgs(r.head, sigma, ps), t)
  }

  lemma {:induction false} FitsRows(r: Rule, w: World, arity: map<Name, nat>, rule: Tables, delta: Tables,
                                    useDelta: set<Name>, rows: seq<Tuple>)
    requires Fits(r, w, arity, rule, delta) && RowsIn(Froms(r.body, useDelta), w, rule, delta, rows)
    ensures var items := Items(r.body, w.attrs); CellsIn(items, rows) && ExprsBound(items) && Good(TrackOf(items), rows)
    ensures ExprBound(r.head, TrackOf(Items(r.body, w.attrs)).first)
  {
    AcceptedBound(r.body, w.attrs, arity);
    AcceptedShaped(r.body, w.attrs, arity);
    assert Fitting(r.body, w, rule, delta, arity);
    assert HeadAccepted(r.head, TrackOf(Items(r.body, w.attrs)).first);
    hide Items, TrackOf, Froms, RowsIn, Fitting, BodyAccepted, ItemsHold, ExprsBound, CellsIn, WorldFits, TablesFit,
      ClauseShaped, AllVarsIn, SigmaOf, Good;
    RowsHaveCells(r.body, w, rule, delta, arity, useDelta, rows);
    TrackMeans(Items(r.body, w.attrs), w, rows);
  }

  lemma {:induction false} RowsDealt(r: Rule, w: World, arity: map<Name, nat>, rule: Tables, delta: Tables,
                                     useDelta: set<Name>, rows: seq<Tuple>, t: Tuple)
    requires Fits(r, w, arity, rule, delta) && RowsIn(Froms(r.body, useDelta), w, rule, delta, rows)
    ensures var st := Emitted(r, w.attrs, useDelta);
            CondsHold(st.where, w, rows, Drop(st.params, HolesIn(st.head)))
              && IsTuple(OperandVals(st.head, rows, st.params), t)
            <==> DealtRows(r, w, st.params, rows, t)
  {
    var st, items := Emitted(r, w.attrs, useDelta), Items(r.body, w.attrs);
    var tr := TrackOf(items);
    FitsRows(r, w, arity, rule, delta, useDelta, rows);
    DealtVals(r.head, tr, rows, st.params);
    assert |Drop(st.params, HolesIn(st.head))| == |tr.params|;
    hide Fits, Items, TrackOf, Froms, RowsIn, ExprsBound, CellsIn, SigmaOf, CondsHold, CondsHoles, DealtItems,
      DealtArgs, OperandVals, HolesIn, ExprParams, IsTuple, ExprOperands, FirstsIn;
    var q, none: seq<Option<Val>> := Drop(st.params, HolesIn(st.head)), [];
    assert q + none == q;
    CondsConcat(tr.where, tr.joins, w, rows, q, none);
    TrackDealt(items, q, w, rows);
  }

  lemma {:induction false} EmittedParts(r: Rule, attrs: map<Bytes, Val>, useDelta: set<Name>)
    ensures var st := Emitted(r, attrs, useDelta);
            && st.params == TrackOf(Items(r.body, attrs)).params + ExprParams(r.head)
            && st.from == Froms(r.body, useDelta)
  {
    hide Items, TrackOf, Froms, ExprParams;
  }

  /** For every accepted rule, its constants where they may: the statement inserts exactly
      the tuples of rows that satisfy the rule once its constants, body first and then
      head, are dealt out again, head first and then body. */
  lemma {:induction false} StatementDealsOut(r: Rule, w: World, arity: map<Name, nat>, rule: Tables, delta: Tables,
                                             useDelta: set<Name>, t: Tuple)
    requires Fits(r, w, arity, rule, delta)
    ensures var ps := TrackOf(Items(r.body, w.attrs)).params + ExprParams(r.head);
            Inserts(Emitted(r, w.attrs, useDelta), w, rule, delta, t) <==>
            exists rows :: RowsIn(Froms(r.body, useDelta), w, rule, delta, rows) && DealtRows(r, w, ps, rows, t)
  {
    var st := Emitted(r, w.attrs, useDelta);
    hide Fits, Items, TrackOf, Froms, RowsIn, CondsHold, OperandVals, HolesIn, ExprParams, IsTuple, DealtRows,
      Emitted, Drop;
    EmittedParts(r, w.attrs, useDelta);
    forall rows | RowsIn(st.from, w, rule, delta, rows)
      ensures CondsHold(st.where, w, rows, Drop(st.params, HolesIn(st.head)))
              && IsTuple(OperandVals(st.head, rows, st.params), t)
              <==> DealtRows(r, w, st.params, rows, t)
    {
      RowsDealt(r, w, arity, rule, delta, useDelta, rows, t);
    }
  }

  // ---------------------------------------------------------------------
  // When the statement is right
  // ---------------------------------------------------------------------

  /** On all data and tables the statement inserts what the rule derives. */
  ghost predicate RightEverywhere(r: Rule, attrs: map<Bytes, Val>, arity: map<Name, nat>, useDelta: set<Name>) {
    forall w: World, rule: Tables, delta: Tables, t: Tuple ::
      w.attrs == attrs && WorldFits(w) && TablesFit(rule, arity) && TablesFit(delta, arity) ==>
      (Inserts(Emitted(r, attrs, useDelta), w, rule, delta, t) <==> Derives(r, w, Reading(rule, delta, useDelta), t))
  }

  const ZERO: Val := 0

  /** The row that a clause asks for when every variable is zero. */
  function RowOf(ts: seq<Term>): (u: Tuple)
    ensures |u| == |ts|
  {
    seq(|ts|, k requires 0 <= k < |ts| => if ts[k].TConst? then ts[k].c else ZERO)
  }

  predicate Applies(c: BodyClause, n: Name) { c.BApply? && c.name == n }

  function NamesIn(body: seq<BodyClause>): set<Name> {
    set c | c in body && c.BApply? :: c.name
  }

  /** A database and tables with just these rows, where every expression holds. */
  function Witness(r: Rule, attrs: map<Bytes, Val>): (World, Tables) {
    (World(attrs, set c | c in r.body && c.BPattern? :: RowOf(PatternTerms(c, attrs)), (_, _) => true),
     map n | n in NamesIn(r.body) :: set c | c in r.body && Applies(c, n) :: RowOf(c.args))
  }

  lemma {:induction false} CellsTracked(items: seq<Item>, x: RVar, ref: Ref)
    requires ICell(TVar(x), ref) in items
    ensures x in TrackOf(items).first
  {
    var pre, it := items[..|items| - 1], items[|items| - 1];
    if ICell(TVar(x), ref) in pre {
      CellsTracked(pre, x, ref);
    } else {
      assert it == ICell(TVar(x), ref);
    }
  }

  lemma {:induction false} ClauseInItems(body: seq<BodyClause>, c: BodyClause, attrs: map<Bytes, Val>, ts: seq<Term>,
                                         x: RVar)
    requires c in body && TVar(x) in ts && (c.BPattern? || c.BApply?)
    requires ts == if c.BPattern? then PatternTerms(c, attrs) else c.args
    ensures x in TrackOf(Items(body, attrs)).first
  {
    var ref := TermItem(body, c, attrs, ts, x);
    CellsTracked(Items(body, attrs), x, ref);
  }

  lemma {:induction false} TermItem(body: seq<BodyClause>, c: BodyClause, attrs: map<Bytes, Val>, ts: seq<Term>,
                                    x: RVar) returns (ref: Ref)
    requires c in body && TVar(x) in ts && (c.BPattern? || c.BApply?)
    requires ts == if c.BPattern? then PatternTerms(c, attrs) else c.args
    ensures ICell(TVar(x), ref) in Items(body, attrs)
  {
    var n := |body| - 1;
    if c in body[..n] {
      ref := TermItem(body[..n], c, attrs, ts, x);
    } else {
      assert body[n] == c;
      var k :| 0 <= k < |ts| && ts[k] == TVar(x);
      ref := Ref(|Froms(body[..n], {})|, k);
      var items := ClauseItems(c, ref.table, attrs);
      if c.BPattern? {
        assert items[0] == ICell(ts[1], Ref(ref.table, 1)) && items[1] == ICell(ts[0], Ref(ref.table, 0));
        assert items[2] == ICell(ts[2], Ref(ref.table, 2)) && items[3] == ICell(ts[3], Ref(ref.table, 3));
      } else {
        assert items[k] == ICell(TVar(x), ref);
      }
    }
  }

  lemma {:induction false} RowFits(ts: seq<Term>, sigma: Sigma)
    requires forall x :: TVar(x) in ts ==> x in sigma && sigma[x] == ZERO
    ensures TermsAre(ts, sigma, RowOf(ts))
  {
    forall k | 0 <= k < |ts| ensures TermIs(ts[k], sigma, RowOf(ts)[k]) {
      assert ts[k] in ts;
    }
  }

  lemma {:induction false} WitnessFits(r: Rule, attrs: map<Bytes, Val>, arity: map<Name, nat>)
    requires RuleAccepted(r, attrs, arity)
    ensures var (w, tables) := Witness(r, attrs); WorldFits(w) && TablesFit(tables, arity)
  {
    AcceptedShaped(r.body, attrs, arity);
    hide RuleAccepted, BodyAccepted, AttrAsTerm;
  }

  /** Every accepted rule derives something somewhere. */
  lemma {:induction false} WitnessDerives(r: Rule, attrs: map<Bytes, Val>, arity: map<Name, nat>, useDelta: set<Name>)
    requires RuleAccepted(r, attrs, arity)
    ensures var (w, tables) := Witness(r, attrs); Derives(r, w, Reading(tables, tables, useDelta), RowOf(r.head))
  {
    var (w, tables) := Witness(r, attrs);
    var first := TrackOf(Items(r.body, attrs)).first;
    var sigma: Sigma := map x | x in first :: ZERO;
    var I := Reading(tables, tables, useDelta);
    AcceptedShaped(r.body, attrs, arity);
    assert HeadAccepted(r.head, first);
    hide RuleAccepted, TrackOf, Items, AttrAsTerm, TermsAre, RowOf, PatternTerms;
    forall c | c in r.body ensures ClauseHolds(c, w, I, sigma) {
      assert ClauseShaped(c, arity);
      if IsTable(c) {
        var ts := if c.BPattern? then PatternTerms(c, attrs) else c.args;
        forall x | TVar(x) in ts ensures x in first {
          ClauseInItems(r.body, c, attrs, ts, x);
        }
        RowFits(ts, sigma);
        if c.BPattern? {
          assert RowOf(ts) in w.datoms;
        } else {
          assert c.name in NamesIn(r.body) && Applies(c, c.name) && RowOf(ts) in tables[c.name];
          assert I(c.name, RowOf(ts));
        }
      }
    }
    RowFits(r.head, sigma);
  }

  /** A statement that is right on all data has its head's constants first among all
      parameters; and one whose two orders of parameters are the same list is right on all
      data. Between the two, when the head's constants come first but the body's are
      shifted, it is the rule with the body's constants shifted, as StatementDealsOut says. */
  lemma {:induction false} RightOnlyIfHeadMatches(r: Rule, attrs: map<Bytes, Val>, arity: map<Name, nat>,
                                                  useDelta: set<Name>)
    requires RuleAccepted(r, attrs, arity)
    ensures RightEverywhere(r, attrs, arity, useDelta) ==> HeadMatches(r, attrs)
    ensures Aligned(r, attrs) ==> RightEverywhere(r, attrs, arity, useDelta)
  {
    var (w, tables) := Witness(r, attrs);
    WitnessFits(r, attrs, arity);
    WitnessDerives(r, attrs, arity, useDelta);
    assert w.attrs == attrs;
    hide Witness, RuleAccepted, WorldFits, TablesFit, Inserts, Derives, HeadMatches, Emitted, Reading, Aligned;
    if RightEverywhere(r, attrs, arity, useDelta) && !HeadMatches(r, attrs) {
      MismatchedNeverRight(r, w, arity, tables, tables, useDelta, Reading(tables, tables, useDelta), RowOf(r.head));
    }
    if Aligned(r, attrs) {
      forall w: World, rule: Tables, delta: Tables, t: Tuple | w.attrs == attrs && WorldFits(w)
        && TablesFit(rule, arity) && TablesFit(delta, arity)
        ensures Inserts(Emitted(r, attrs, useDelta), w, rule, delta, t)
                <==> Derives(r, w, Reading(rule, delta, useDelta), t)
      {
        StatementIsRule(r, w, arity, rule, delta, useDelta, t);
      }
    }
  }
}
