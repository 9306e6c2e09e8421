/** The statement emitted for a rule inserts exactly the tuples the rule derives. */
module RuleMeaning {
  import opened Prelude
  import opened Rules

  // ---------------------------------------------------------------------
  // Placeholders
  // ---------------------------------------------------------------------

  lemma {:induction false} DropWithin(p: seq<Option<Val>>, q: seq<Option<Val>>, n: nat)
    requires n <= |p|
    ensures Drop(p + q, n) == Drop(p, n) + q && |Drop(p, n)| == |p| - n
    ensures n > 0 ==> p != [] && (p + q)[0] == p[0]
  {
  }

  lemma {:induction false} ValsPrefix(os: seq<ROperand>, rows: seq<Tuple>, p: seq<Option<Val>>, q: seq<Option<Val>>)
    requires HolesIn(os) <= |p|
    ensures OperandVals(os, rows, p + q) == OperandVals(os, rows, p)
  {
    if os != [] {
      DropWithin(p, q, Holes(os[0]));
      ValsPrefix(os[1..], rows, Drop(p, Holes(os[0])), q);
    }
  }

  lemma {:induction false} CondPrefix(c: Cond, w: World, rows: seq<Tuple>, p: seq<Option<Val>>, q: seq<Option<Val>>)
    requires CondHoles(c) <= |p|
    ensures CondHolds(c, w, rows, p + q) <==> CondHolds(c, w, rows, p)
  {
    hide RefVal;
    match c
    case CEq(_, r) => assert r.OHole? ==> (p + q)[0] == p[0];
    case CExpr(_, args) => ValsPrefix(args, rows, p, q);
  }

  /** Each run of conditions takes exactly its own parameters. */
  lemma {:induction false} CondsConcat(cs: seq<Cond>, ds: seq<Cond>, w: World, rows: seq<Tuple>, p: seq<Option<Val>>,
                                       q: seq<Option<Val>>)
    requires CondsHoles(cs) == |p|
    ensures CondsHold(cs + ds, w, rows, p + q) <==> CondsHold(cs, w, rows, p) && CondsHold(ds, w, rows, q)
    ensures CondsHoles(cs + ds) == |p| + CondsHoles(ds)
  {
    hide CondHoles, CondHolds, Drop;
    if cs == [] {
      assert cs + ds == ds && p + q == q;
    } else {
      var n := CondHoles(cs[0]);
      assert (cs + ds)[1..] == cs[1..] + ds;
      DropWithin(p, q, n);
      CondPrefix(cs[0], w, rows, p, q);
      CondsConcat(cs[1..], ds, w, rows, Drop(p, n), q);
    }
  }

  lemma {:induction false} OneCond(c: Cond, w: World, rows: seq<Tuple>, p: seq<Option<Val>>)
    ensures CondsHold([c], w, rows, p) <==> CondHolds(c, w, rows, p)
    ensures CondsHoles([c]) == CondHoles(c)
  {
    hide CondHolds, CondHoles;
    assert [c][1..] == [];
  }

  // ---------------------------------------------------------------------
  // What a tracked body says about rows
  // ---------------------------------------------------------------------

  /** A position holds its term; an expression holds. */
  predicate ItemHolds(it: Item, w: World, rows: seq<Tuple>, sigma: Sigma) {
    match it
    case ICell(t, r) => RefVal(rows, r).Some? && TermIs(t, sigma, RefVal(rows, r).value)
    case IExpr(fn, args) => w.holds(fn, ArgsOf(args, sigma))
  }

  ghost predicate ItemsHold(items: seq<Item>, w: World, rows: seq<Tuple>, sigma: Sigma) {
    forall it :: it in items ==> ItemHolds(it, w, rows, sigma)
  }

  /** The values of the variables at their first places. */
  function SigmaOf(tr: Track, rows: seq<Tuple>): Sigma {
    map x | x in tr.first && RefVal(rows, tr.first[x]).Some? :: RefVal(rows, tr.first[x]).value
  }

  ghost predicate CellsIn(items: seq<Item>, rows: seq<Tuple>) {
    forall it :: it in items && it.ICell? ==> RefVal(rows, it.r).Some?
  }

  ghost predicate FirstsIn(tr: Track, rows: seq<Tuple>) {
    forall x :: x in tr.first ==> RefVal(rows, tr.first[x]).Some?
  }

  predicate VarsIn(it: Item, vars: set<RVar>) {
    match it
    case ICell(t, _) => t.TVar? ==> t.x in vars
    case IExpr(_, args) => forall t :: t in args && t.TVar? ==> t.x in vars
  }

  ghost predicate ExprsBound(items: seq<Item>) {
    forall i :: 0 <= i < |items| && items[i].IExpr? ==> ExprBound(items[i].args, TrackOf(items[..i]).first)
  }

  predicate Within(sigma: Sigma, tau: Sigma) {
    forall x :: x in sigma ==> x in tau && sigma[x] == tau[x]
  }

  lemma {:induction false} SameItem(it: Item, w: World, rows: seq<Tuple>, sigma: Sigma, tau: Sigma)
    requires VarsIn(it, sigma.Keys) && Within(sigma, tau)
    ensures ItemHolds(it, w, rows, sigma) <==> ItemHolds(it, w, rows, tau)
  {
    hide RefVal;
    match it
    case ICell(_, _) =>
    case IExpr(_, args) =>
      assert forall k :: 0 <= k < |args| ==> args[k] in args && ArgOf(args[k], sigma) == ArgOf(args[k], tau);
      assert ArgsOf(args, sigma) == ArgsOf(args, tau);
  }

  /** The conditions gathered so far. */
  predicate TrackHolds(tr: Track, w: World, rows: seq<Tuple>) {
    CondsHold(tr.where, w, rows, tr.params) && CondsHold(tr.joins, w, rows, [])
  }

  predicate Counted(tr: Track) {
    CondsHoles(tr.where) == |tr.params| && CondsHoles(tr.joins) == 0
  }

  lemma {:induction false} WhereSnoc(tr: Track, c: Cond, q: seq<Option<Val>>, w: World, rows: seq<Tuple>)
    requires Counted(tr) && CondHoles(c) == |q|
    ensures var tr' := tr.(where := tr.where + [c], params := tr.params + q);
            Counted(tr') && (TrackHolds(tr', w, rows) <==> TrackHolds(tr, w, rows) && CondHolds(c, w, rows, q))
  {
    hide CondHoles, CondHolds, CondsHold, CondsHoles;
    CondsConcat(tr.where, [c], w, rows, tr.params, q);
    OneCond(c, w, rows, q);
  }

  lemma {:induction false} JoinSnoc(tr: Track, c: Cond, w: World, rows: seq<Tuple>)
    requires Counted(tr) && CondHoles(c) == 0
    ensures var tr' := tr.(joins := tr.joins + [c]);
            Counted(tr') && (TrackHolds(tr', w, rows) <==> TrackHolds(tr, w, rows) && CondHolds(c, w, rows, []))
  {
    hide CondHoles, CondHolds, CondsHold, CondsHoles;
    CondsConcat(tr.joins, [c], w, rows, [], []);
    var none: seq<Option<Val>> := [];
    assert none + none == none;
    OneCond(c, w, rows, []);
  }

  lemma {:induction false} OperandsCons(t: Term, ts: seq<Term>, first: map<RVar, Ref>)
    ensures ExprOperands([t] + ts, first) == [ExprOperand(t, first)] + ExprOperands(ts, first)
  {
    hide ExprOperand;
  }

  lemma {:induction false} ArgsCons(t: Term, ts: seq<Term>, sigma: Sigma)
    ensures ArgsOf([t] + ts, sigma) == [ArgOf(t, sigma)] + ArgsOf(ts, sigma)
  {
    hide ArgOf;
  }

  lemma {:induction false} ParamsCons(t: Term, ts: seq<Term>)
    ensures ExprParams([t] + ts) == ParamOf(t) + ExprParams(ts)
  {
    assert ([t] + ts)[1..] == ts;
  }

  lemma {:induction false} ValsCons(o: ROperand, os: seq<ROperand>, rows: seq<Tuple>, ps: seq<Option<Val>>)
    ensures OperandVals([o] + os, rows, ps) == [OperandVal(o, rows, ps)] + OperandVals(os, rows, Drop(ps, Holes(o)))
    ensures HolesIn([o] + os) == Holes(o) + HolesIn(os)
  {
    assert ([o] + os)[1..] == os;
  }

  ghost predicate TakesArgs(args: seq<Term>, tr: Track, rows: seq<Tuple>) {
    && HolesIn(ExprOperands(args, tr.first)) == |ExprParams(args)|
    && OperandVals(ExprOperands(args, tr.first), rows, ExprParams(args)) == ArgsOf(args, SigmaOf(tr, rows))
  }

  lemma {:induction false} TakesCons(t: Term, ts: seq<Term>, tr: Track, rows: seq<Tuple>)
    requires FirstsIn(tr, rows) && (t.TVar? ==> t.x in tr.first) && TakesArgs(ts, tr, rows)
    ensures TakesArgs([t] + ts, tr, rows)
  {
    FirstVal(t, tr, rows, ExprParams(ts));
    OperandsCons(t, ts, tr.first);
    ArgsCons(t, ts, SigmaOf(tr, rows));
    ParamsCons(t, ts);
    ValsCons(ExprOperand(t, tr.first), ExprOperands(ts, tr.first), rows, ParamOf(t) + ExprParams(ts));
    hide FirstsIn, ExprOperands, ExprOperand, ArgsOf, ArgOf, ExprParams, ParamOf, OperandVals, OperandVal, HolesIn,
      Holes, Drop, SigmaOf;
  }

  /** The operands of an expression take its constants. */
  lemma {:induction false} ExprVals(args: seq<Term>, tr: Track, rows: seq<Tuple>)
    requires FirstsIn(tr, rows) && ExprBound(args, tr.first)
    ensures TakesArgs(args, tr, rows)
    decreases |args|
  {
    if args != [] {
      hide TakesArgs, FirstsIn;
      var t, ts := args[0], args[1..];
      assert args == [t] + ts && t in args;
      assert forall u :: u in ts ==> u in args;
      ExprVals(ts, tr, rows);
      TakesCons(t, ts, tr, rows);
    }
  }

  lemma {:induction false} FirstVal(t: Term, tr: Track, rows: seq<Tuple>, rest: seq<Option<Val>>)
    requires FirstsIn(tr, rows) && (t.TVar? ==> t.x in tr.first)
    ensures var o, ps := ExprOperand(t, tr.first), ParamOf(t) + rest;
            Holes(o) == |ParamOf(t)| && Drop(ps, Holes(o)) == rest
              && OperandVal(o, rows, ps) == ArgOf(t, SigmaOf(tr, rows))
  {
    hide RefVal;
  }

  ghost predicate Good(tr: Track, rows: seq<Tuple>) {
    Counted(tr) && FirstsIn(tr, rows)
  }

  lemma {:induction false} TrackExpr(tr: Track, fn: Bytes, args: seq<Term>, w: World, rows: seq<Tuple>)
    requires Good(tr, rows) && ExprBound(args, tr.first)
    ensures var tr' := Tracked(tr, IExpr(fn, args));
            && Good(tr', rows) && tr'.first == tr.first
            && (TrackHolds(tr', w, rows) <==> TrackHolds(tr, w, rows) && w.holds(fn, ArgsOf(args, SigmaOf(tr, rows))))
  {
    ExprVals(args, tr, rows);
    hide Counted, TrackHolds, FirstsIn, ExprBound;
    WhereSnoc(tr, CExpr(fn, ExprOperands(args, tr.first)), ExprParams(args), w, rows);
  }

  lemma {:induction false} TrackCell(tr: Track, t: Term, r: Ref, w: World, rows: seq<Tuple>)
    requires Good(tr, rows) && RefVal(rows, r).Some?
    ensures var tr' := Tracked(tr, ICell(t, r));
            && Good(tr', rows) && Within(SigmaOf(tr, rows), SigmaOf(tr', rows)) && VarsIn(ICell(t, r), tr'.first.Keys)
            && (TrackHolds(tr', w, rows)
                <==> TrackHolds(tr, w, rows) && TermIs(t, SigmaOf(tr', rows), RefVal(rows, r).value))
  {
    hide RefVal, CondsHold, CondsHoles;
    match t
    case TBlank =>
    case TConst(c) => WhereSnoc(tr, CEq(r, OHole), [Some(c)], w, rows);
    case TVar(x) =>
      if x in tr.first {
        JoinSnoc(tr, CEq(tr.first[x], ORef(r)), w, rows);
      }
  }

  lemma {:induction false} TrackItem(tr: Track, it: Item, w: World, rows: seq<Tuple>)
    requires Good(tr, rows) && (if it.ICell? then RefVal(rows, it.r).Some? else ExprBound(it.args, tr.first))
    ensures var tr' := Tracked(tr, it);
            && Good(tr', rows) && Within(SigmaOf(tr, rows), SigmaOf(tr', rows)) && VarsIn(it, SigmaOf(tr', rows).Keys)
            && (TrackHolds(tr', w, rows) <==> TrackHolds(tr, w, rows) && ItemHolds(it, w, rows, SigmaOf(tr', rows)))
  {
    hide RefVal, TrackHolds, Counted;
    match it
    case ICell(t, r) => TrackCell(tr, t, r, w, rows);
    case IExpr(fn, args) => TrackExpr(tr, fn, args, w, rows);
  }

  ghost predicate AllVarsIn(items: seq<Item>, vars: set<RVar>) {
    forall it :: it in items ==> VarsIn(it, vars)
  }

  lemma {:induction false} SameItems(items: seq<Item>, w: World, rows: seq<Tuple>, sigma: Sigma, tau: Sigma)
    requires AllVarsIn(items, sigma.Keys) && Within(sigma, tau)
    ensures ItemsHold(items, w, rows, sigma) <==> ItemsHold(items, w, rows, tau)
    ensures AllVarsIn(items, tau.Keys)
  {
    hide ItemHolds;
    forall it | it in items ensures (ItemHolds(it, w, rows, sigma) <==> ItemHolds(it, w, rows, tau))
      && VarsIn(it, tau.Keys) {
      SameItem(it, w, rows, sigma, tau);
    }
  }

  lemma {:induction false} BoundPrefix(items: seq<Item>)
    requires items != [] && ExprsBound(items)
    ensures ExprsBound(items[..|items| - 1])
    ensures items[|items| - 1].IExpr? ==> ExprBound(items[|items| - 1].args, TrackOf(items[..|items| - 1]).first)
  {
    hide ExprBound, TrackOf;
    var pre := items[..|items| - 1];
    assert forall i :: 0 <= i < |pre| ==> pre[..i] == items[..i] && pre[i] == items[i];
  }

  /** Rows meet the gathered conditions exactly when every item holds under the values
      that stand at the variables' first places. */
  lemma {:induction false} TrackMeans(items: seq<Item>, w: World, rows: seq<Tuple>)
    requires CellsIn(items, rows) && ExprsBound(items)
    ensures var tr := TrackOf(items); var sigma := SigmaOf(tr, rows);
            && Good(tr, rows) && AllVarsIn(items, sigma.Keys)
            && (TrackHolds(tr, w, rows) <==> ItemsHold(items, w, rows, sigma))
  {
    if items == [] {
    } else {
      var n := |items| - 1;
      var pre, it := items[..n], items[n];
      BoundPrefix(items);
      assert forall i :: i in pre ==> i in items;
      assert it in items;
      TrackMeans(pre, w, rows);
      var tr, tr' := TrackOf(pre), TrackOf(items);
      assert tr' == Tracked(tr, it);
      TrackItem(tr, it, w, rows);
      hide TrackHolds, ItemHolds, Good, Tracked, TrackOf, Within, VarsIn, SigmaOf, ExprsBound, CellsIn;
      SameItems(pre, w, rows, SigmaOf(tr, rows), SigmaOf(tr', rows));
      assert forall i :: i in items <==> i in pre || i == it;
    }
  }

  /** If every item holds under some values, these are the values at the first places. */
  lemma {:induction false} ItemsDetermine(items: seq<Item>, w: World, rows: seq<Tuple>, tau: Sigma)
    requires CellsIn(items, rows) && ItemsHold(items, w, rows, tau)
    ensures Within(SigmaOf(TrackOf(items), rows), tau)
  {
    if items != [] {
      var n := |items| - 1;
      var pre, it := items[..n], items[n];
      assert forall i :: i in pre ==> i in items;
      assert it in items;
      ItemsDetermine(pre, w, rows, tau);
      assert ItemHolds(it, w, rows, tau);
      assert TrackOf(items) == Tracked(TrackOf(pre), it);
      hide TrackOf, Tracked, ItemHolds, SigmaOf, Within, CellsIn, ItemsHold;
      DetermineStep(TrackOf(pre), it, w, rows, tau);
    }
  }

  lemma {:induction false} DetermineStep(tr: Track, it: Item, w: World, rows: seq<Tuple>, tau: Sigma)
    requires Within(SigmaOf(tr, rows), tau) && ItemHolds(it, w, rows, tau)
    ensures Within(SigmaOf(Tracked(tr, it), rows), tau)
  {
    hide RefVal, ArgsOf;
  }

  lemma {:induction false} TrackSnoc(pre: seq<Item>, it: Item)
    ensures TrackOf(pre + [it]) == Tracked(TrackOf(pre), it)
  {
    assert (pre + [it])[..|pre|] == pre;
  }

  // ---------------------------------------------------------------------
  // Bodies and rows
  // ---------------------------------------------------------------------

  /** Rule names read their tables, those in useDelta their delta tables. */
  function Reading(rule: Tables, delta: Tables, useDelta: set<Name>): Interp {
    (n: Name, u: Tuple) => u in TuplesOf(if n in useDelta then delta else rule, n)
  }

  ghost predicate WorldFits(w: World) {
    forall d :: d in w.datoms ==> |d| == 4
  }

  predicate OfArity(n: Name, u: Tuple, arity: map<Name, nat>) {
    n in arity && |u| == arity[n]
  }

  ghost predicate TablesFit(t: Tables, arity: map<Name, nat>) {
    forall n, u :: u in TuplesOf(t, n) ==> OfArity(n, u, arity)
  }

  /** What acceptance says of each clause on its own. */
  predicate ClauseShaped(c: BodyClause, arity: map<Name, nat>) {
    !c.BOther? && (c.BApply? ==> c.name in arity && |c.args| == arity[c.name])
  }

  ghost predicate Fitting(body: seq<BodyClause>, w: World, rule: Tables, delta: Tables, arity: map<Name, nat>) {
    WorldFits(w) && TablesFit(rule, arity) && TablesFit(delta, arity)
      && forall c :: c in body ==> ClauseShaped(c, arity)
  }

  lemma {:induction false} SameFroms(body: seq<BodyClause>, useDelta: set<Name>)
    ensures |Froms(body, useDelta)| == |Froms(body, {})|
  {
    if body != [] {
      SameFroms(body[..|body| - 1], useDelta);
    }
  }

  lemma {:induction false} BodySnoc(body: seq<BodyClause>, c: BodyClause, useDelta: set<Name>, attrs: map<Bytes, Val>)
    ensures Froms(body + [c], useDelta) == Froms(body, useDelta) + if IsTable(c) then [SourceOf(c, useDelta)] else []
    ensures Items(body + [c], attrs) == Items(body, attrs) + ClauseItems(c, |Froms(body, {})|, attrs)
  {
    assert (body + [c])[..|body|] == body;
  }

  predicate ItemBelow(it: Item, k: nat) { it.ICell? ==> it.r.table < k }

  lemma {:induction false} ItemsBelow(body: seq<BodyClause>, attrs: map<Bytes, Val>)
    ensures forall it :: it in Items(body, attrs) ==> ItemBelow(it, |Froms(body, {})|)
  {
    if body != [] {
      ItemsBelow(body[..|body| - 1], attrs);
    }
  }

  lemma {:induction false} BelowSame(items: seq<Item>, w: World, rows: seq<Tuple>, u: Tuple, sigma: Sigma)
    requires forall it :: it in items ==> ItemBelow(it, |rows|)
    ensures ItemsHold(items, w, rows + [u], sigma) <==> ItemsHold(items, w, rows, sigma)
  {
    forall it | it in items ensures ItemHolds(it, w, rows + [u], sigma) <==> ItemHolds(it, w, rows, sigma) {
    }
  }

  /** The items of a table clause, against the table's row. */
  lemma {:induction false} PatternRow(c: BodyClause, attrs: map<Bytes, Val>, w: World, rows: seq<Tuple>, u: Tuple,
                                      sigma: Sigma)
    requires c.BPattern? && |u| == 4
    ensures ItemsHold(ClauseItems(c, |rows|, attrs), w, rows + [u], sigma)
            <==> TermsAre(PatternTerms(c, attrs), sigma, u)
  {
    var items, ts, k := ClauseItems(c, |rows|, attrs), PatternTerms(c, attrs), |rows|;
    assert forall it :: it in items <==> it == items[0] || it == items[1] || it == items[2] || it == items[3];
    assert forall i :: 0 <= i < 4 ==> RefVal(rows + [u], Ref(k, i)) == Some(u[i]);
    hide AttrAsTerm, TermIs, RefVal;
    assert ItemHolds(items[0], w, rows + [u], sigma) <==> TermIs(ts[1], sigma, u[1]);
    assert ItemHolds(items[1], w, rows + [u], sigma) <==> TermIs(ts[0], sigma, u[0]);
    assert ItemHolds(items[2], w, rows + [u], sigma) <==> TermIs(ts[2], sigma, u[2]);
    assert ItemHolds(items[3], w, rows + [u], sigma) <==> TermIs(ts[3], sigma, u[3]);
  }

  lemma {:induction false} ApplyRow(args: seq<Term>, w: World, rows: seq<Tuple>, u: Tuple, sigma: Sigma)
    requires |u| == |args|
    ensures ItemsHold(Cells(args, |rows|), w, rows + [u], sigma) <==> TermsAre(args, sigma, u)
  {
    var items, k := Cells(args, |rows|), |rows|;
    hide TermIs;
    forall i | 0 <= i < |args|
      ensures items[i] in items && (ItemHolds(items[i], w, rows + [u], sigma) <==> TermIs(args[i], sigma, u[i])) {
      assert RefVal(rows + [u], Ref(k, i)) == Some(u[i]);
    }
    hide ItemHolds, Cells;
    if ItemsHold(items, w, rows + [u], sigma) {
      assert forall i :: 0 <= i < |args| ==> ItemHolds(items[i], w, rows + [u], sigma);
    }
  }

  lemma {:induction false} ItemsConcat(a: seq<Item>, b: seq<Item>, w: World, rows: seq<Tuple>, sigma: Sigma)
    ensures ItemsHold(a + b, w, rows, sigma) <==> ItemsHold(a, w, rows, sigma) && ItemsHold(b, w, rows, sigma)
  {
    hide ItemHolds;
    assert forall it :: it in a + b <==> it in a || it in b;
  }

  ghost predicate RowFor(c: BodyClause, w: World, I: Interp, sigma: Sigma, u: Tuple) {
    match c
    case BPattern(_, _, _, _) => u in w.datoms && TermsAre(PatternTerms(c, w.attrs), sigma, u)
    case BApply(n, args) => I(n, u) && TermsAre(args, sigma, u)
    case _ => true
  }

  /** One clause, its table's row last. */
  lemma {:induction false} ClauseRow(c: BodyClause, w: World, rule: Tables, delta: Tables, arity: map<Name, nat>,
                                     useDelta: set<Name>,
                                     rows: seq<Tuple>, u: Tuple, sigma: Sigma)
    requires WorldFits(w) && TablesFit(rule, arity) && TablesFit(delta, arity) && ClauseShaped(c, arity) && IsTable(c)
    ensures InSource(SourceOf(c, useDelta), w, rule, delta, u)
            && ItemsHold(ClauseItems(c, |rows|, w.attrs), w, rows + [u], sigma)
            <==> RowFor(c, w, Reading(rule, delta, useDelta), sigma, u)
  {
    hide TermIs, ItemsHold;
    if c.BPattern? {
      if u in w.datoms {
        PatternRow(c, w.attrs, w, rows, u, sigma);
      }
      hide PatternTerms, ClauseItems;
    } else {
      if |u| == |c.args| {
        ApplyRow(c.args, w, rows, u, sigma);
      }
      hide TablesFit;
      FitRow(rule, arity, c.name, u);
      FitRow(delta, arity, c.name, u);
    }
  }

  lemma {:induction false} FitRow(t: Tables, arity: map<Name, nat>, n: Name, u: Tuple)
    requires TablesFit(t, arity) && n in arity
    ensures u in TuplesOf(t, n) ==> |u| == arity[n]
  {
  }

  lemma {:induction false} ExprRow(c: BodyClause, w: World, rows: seq<Tuple>, k: nat, I: Interp, sigma: Sigma)
    requires c.BExpr?
    ensures ItemsHold(ClauseItems(c, k, w.attrs), w, rows, sigma) <==> ClauseHolds(c, w, I, sigma)
  {
    assert ClauseItems(c, k, w.attrs)[0] in ClauseItems(c, k, w.attrs);
  }

  lemma {:induction false} FittingPrefix(body: seq<BodyClause>, w: World, rule: Tables, delta: Tables,
                                         arity: map<Name, nat>)
    requires body != [] && Fitting(body, w, rule, delta, arity)
    ensures Fitting(body[..|body| - 1], w, rule, delta, arity) && ClauseShaped(body[|body| - 1], arity)
  {
    assert body[|body| - 1] in body;
    hide WorldFits, TablesFit, ClauseShaped;
  }

  /** The rows without the last clause's. */
  function RestOf(c: BodyClause, rows: seq<Tuple>): seq<Tuple> {
    if IsTable(c) && rows != [] then rows[..|rows| - 1] else rows
  }

  lemma {:induction false} RestIs(c: BodyClause, rest: seq<Tuple>, u: Tuple)
    ensures IsTable(c) ==> RestOf(c, rest + [u]) == rest
    ensures !IsTable(c) ==> RestOf(c, rest) == rest
  {
  }

  /** The last clause's part of rows for a body. */
  lemma {:induction false} SplitLast(pre: seq<BodyClause>, c: BodyClause, w: World, rule: Tables, delta: Tables,
                                     useDelta: set<Name>,
                                     rows: seq<Tuple>, sigma: Sigma)
    requires RowsIn(Froms(pre + [c], useDelta), w, rule, delta, rows)
             && ItemsHold(Items(pre + [c], w.attrs), w, rows, sigma)
    ensures var k := |Froms(pre, {})|;
            && |Froms(pre, useDelta)| == k && |rows| == k + (if IsTable(c) then 1 else 0)
            && RowsIn(Froms(pre, useDelta) + (if IsTable(c) then [SourceOf(c, useDelta)] else []), w, rule, delta, rows)
            && ItemsHold(Items(pre, w.attrs), w, rows, sigma) && ItemsHold(ClauseItems(c, k, w.attrs), w, rows, sigma)
  {
    var k := |Froms(pre, {})|;
    BodySnoc(pre, c, useDelta, w.attrs);
    SameFroms(pre, useDelta);
    ItemsConcat(Items(pre, w.attrs), ClauseItems(c, k, w.attrs), w, rows, sigma);
    hide Items, ClauseItems, Froms, ItemsHold, InSource, SourceOf, IsTable;
  }

  lemma {:induction false} LastClause(pre: seq<BodyClause>, c: BodyClause, w: World, rule: Tables, delta: Tables,
                                      arity: map<Name, nat>,
                                      useDelta: set<Name>, rows: seq<Tuple>, sigma: Sigma)
    requires WorldFits(w) && TablesFit(rule, arity) && TablesFit(delta, arity) && ClauseShaped(c, arity)
    requires RowsIn(Froms(pre + [c], useDelta), w, rule, delta, rows)
             && ItemsHold(Items(pre + [c], w.attrs), w, rows, sigma)
    ensures RowsIn(Froms(pre, useDelta), w, rule, delta, RestOf(c, rows))
            && ItemsHold(Items(pre, w.attrs), w, RestOf(c, rows), sigma)
    ensures ClauseHolds(c, w, Reading(rule, delta, useDelta), sigma)
  {
    ExprClause(c, arity);
    if IsTable(c) {
      var rest, u := TableRow(pre, c, w, rule, delta, useDelta, rows);
      hide *;
      SplitLast(pre, c, w, rule, delta, useDelta, rows, sigma);
      RestIs(c, rest, u);
      LastTable(pre, c, w, rule, delta, arity, useDelta, rest, u, sigma);
      RowHolds(c, w, Reading(rule, delta, useDelta), sigma, u);
    } else {
      hide *;
      SplitLast(pre, c, w, rule, delta, useDelta, rows, sigma);
      RestIs(c, rows, []);
      ExprRow(c, w, rows, |Froms(pre, {})|, Reading(rule, delta, useDelta), sigma);
      assert Froms(pre, useDelta) + [] == Froms(pre, useDelta);
    }
  }

  lemma {:induction false} TableRow(pre: seq<BodyClause>, c: BodyClause, w: World, rule: Tables, delta: Tables,
                                    useDelta: set<Name>, rows: seq<Tuple>)
    returns (rest: seq<Tuple>, u: Tuple)
    requires IsTable(c) && RowsIn(Froms(pre + [c], useDelta), w, rule, delta, rows)
    ensures rows == rest + [u] && |rest| == |Froms(pre, useDelta)| == |Froms(pre, {})|
  {
    BodySnoc(pre, c, useDelta, w.attrs);
    SameFroms(pre, useDelta);
    hide Froms, Items, InSource;
    rest, u := rows[..|rows| - 1], rows[|rows| - 1];
  }

  lemma {:induction false} LastTable(pre: seq<BodyClause>, c: BodyClause, w: World, rule: Tables, delta: Tables,
                                     arity: map<Name, nat>,
                                     useDelta: set<Name>, rest: seq<Tuple>, u: Tuple, sigma: Sigma)
    requires WorldFits(w) && TablesFit(rule, arity) && TablesFit(delta, arity) && ClauseShaped(c, arity) && IsTable(c)
    requires |rest| == |Froms(pre, useDelta)| == |Froms(pre, {})|
    requires RowsIn(Froms(pre, useDelta) + [SourceOf(c, useDelta)], w, rule, delta, rest + [u])
    requires ItemsHold(Items(pre, w.attrs), w, rest + [u], sigma)
             && ItemsHold(ClauseItems(c, |rest|, w.attrs), w, rest + [u], sigma)
    ensures RowsIn(Froms(pre, useDelta), w, rule, delta, rest) && ItemsHold(Items(pre, w.attrs), w, rest, sigma)
    ensures RowFor(c, w, Reading(rule, delta, useDelta), sigma, u)
  {
    hide Items, ClauseItems, Froms, ItemsHold, InSource, WorldFits, TablesFit, Reading, RowFor, ClauseShaped, RowsIn;
    ItemsBelow(pre, w.attrs);
    BelowSame(Items(pre, w.attrs), w, rest, u, sigma);
    PrefixRows(Froms(pre, useDelta), SourceOf(c, useDelta), w, rule, delta, rest, u);
    ClauseRow(c, w, rule, delta, arity, useDelta, rest, u, sigma);
  }

  /** Rows that satisfy the items satisfy the body. */
  lemma {:induction false} RowsGiveBody(body: seq<BodyClause>, w: World, rule: Tables, delta: Tables, arity: map<Name,
                                        nat>, useDelta: set<Name>,
                                        rows: seq<Tuple>, sigma: Sigma)
    requires Fitting(body, w, rule, delta, arity)
    requires RowsIn(Froms(body, useDelta), w, rule, delta, rows) && ItemsHold(Items(body, w.attrs), w, rows, sigma)
    ensures BodyHolds(body, w, Reading(rule, delta, useDelta), sigma)
  {
    if body != [] {
      var n := |body| - 1;
      var pre, c := body[..n], body[n];
      assert body == pre + [c];
      hide *;
      FittingPrefix(body, w, rule, delta, arity);
      FittingParts(body, w, rule, delta, arity);
      LastClause(pre, c, w, rule, delta, arity, useDelta, rows, sigma);
      RowsGiveBody(pre, w, rule, delta, arity, useDelta, RestOf(c, rows), sigma);
      BodyHoldsSnoc(pre, c, w, Reading(rule, delta, useDelta), sigma);
    }
  }

  lemma {:induction false} BodyHoldsSnoc(pre: seq<BodyClause>, c: BodyClause, w: World, I: Interp, sigma: Sigma)
    requires BodyHolds(pre, w, I, sigma) && ClauseHolds(c, w, I, sigma)
    ensures BodyHolds(pre + [c], w, I, sigma)
  {
    hide ClauseHolds;
  }

  lemma {:induction false} FittingParts(body: seq<BodyClause>, w: World, rule: Tables, delta: Tables, arity: map<Name,
                                        nat>)
    requires Fitting(body, w, rule, delta, arity)
    ensures WorldFits(w) && TablesFit(rule, arity) && TablesFit(delta, arity)
  {
  }

  lemma {:induction false} ExprClause(c: BodyClause, arity: map<Name, nat>)
    requires ClauseShaped(c, arity)
    ensures !IsTable(c) ==> c.BExpr?
  {
  }

  lemma {:induction false} PrefixRows(from: seq<Source>, s: Source, w: World, rule: Tables, delta: Tables,
                                      rows: seq<Tuple>, u: Tuple)
    ensures RowsIn(from + [s], w, rule, delta, rows + [u]) && |rows| == |from|
            <==> RowsIn(from, w, rule, delta, rows) && InSource(s, w, rule, delta, u)
  {
    hide InSource;
    if RowsIn(from + [s], w, rule, delta, rows + [u]) && |rows| == |from| {
      forall i | 0 <= i < |from| ensures InSource(from[i], w, rule, delta, rows[i]) {
        assert (from + [s])[i] == from[i] && (rows + [u])[i] == rows[i];
      }
      assert (from + [s])[|from|] == s && (rows + [u])[|from|] == u;
    }
  }

  lemma {:induction false} RowHolds(c: BodyClause, w: World, I: Interp, sigma: Sigma, u: Tuple)
    requires IsTable(c) && RowFor(c, w, I, sigma, u)
    ensures ClauseHolds(c, w, I, sigma)
  {
    hide TermsAre, PatternTerms;
  }

  lemma {:induction false} HoldsRow(c: BodyClause, w: World, I: Interp, sigma: Sigma) returns (u: Tuple)
    requires IsTable(c) && ClauseHolds(c, w, I, sigma)
    ensures RowFor(c, w, I, sigma, u)
  {
    hide TermsAre, PatternTerms;
    if c.BPattern? {
      u :| u in w.datoms && TermsAre(PatternTerms(c, w.attrs), sigma, u);
    } else {
      u :| I(c.name, u) && TermsAre(c.args, sigma, u);
    }
  }

  /** A satisfied body has rows that satisfy its items. */
  lemma {:induction false} BodyGivesRows(body: seq<BodyClause>, w: World, rule: Tables, delta: Tables,
                                         arity: map<Name, nat>, useDelta: set<Name>,
                                         sigma: Sigma) returns (rows: seq<Tuple>)
    requires Fitting(body, w, rule, delta, arity) && BodyHolds(body, w, Reading(rule, delta, useDelta), sigma)
    ensures RowsIn(Froms(body, useDelta), w, rule, delta, rows) && ItemsHold(Items(body, w.attrs), w, rows, sigma)
  {
    rows := [];
    if body != [] {
      var n := |body| - 1;
      var pre, c, I := body[..n], body[n], Reading(rule, delta, useDelta);
      var k := |Froms(pre, {})|;
      assert body == pre + [c] && c in body;
      FittingPrefix(body, w, rule, delta, arity);
      FittingParts(body, w, rule, delta, arity);
      BodySnoc(pre, c, useDelta, w.attrs);
      SameFroms(pre, useDelta);
      ItemsBelow(pre, w.attrs);
      hide Items, ClauseItems, Froms, ItemsHold, ClauseHolds, InSource, Fitting, Reading, ClauseShaped, RowFor;
      rows := BodyGivesRows(pre, w, rule, delta, arity, useDelta, sigma);
      if IsTable(c) {
        var u := HoldsRow(c, w, I, sigma);
        ClauseRow(c, w, rule, delta, arity, useDelta, rows, u, sigma);
        BelowSame(Items(pre, w.attrs), w, rows, u, sigma);
        PrefixRows(Froms(pre, useDelta), SourceOf(c, useDelta), w, rule, delta, rows, u);
        rows := rows + [u];
      } else {
        ExprClause(c, arity);
        ExprRow(c, w, rows, k, I, sigma);
      }
      ItemsConcat(Items(pre, w.attrs), ClauseItems(c, k, w.attrs), w, rows, sigma);
    }
  }

  // ---------------------------------------------------------------------
  // The statement
  // ---------------------------------------------------------------------

  lemma {:induction false} BoundCells(items: seq<Item>, more: seq<Item>)
    requires ExprsBound(items) && forall it :: it in more ==> it.ICell?
    ensures ExprsBound(items + more)
  {
    hide ExprBound, TrackOf;
    var all := items + more;
    forall k | |items| <= k < |all| ensures all[k].ICell? {
      assert all[k] == more[k - |items|] && all[k] in more;
    }
    forall i | 0 <= i < |all| && all[i].IExpr? ensures ExprBound(all[i].args, TrackOf(all[..i]).first) {
      assert all[..i] == items[..i] && all[i] == items[i];
    }
  }

  lemma {:induction false} BoundExpr(items: seq<Item>, fn: Bytes, args: seq<Term>)
    requires ExprsBound(items) && ExprBound(args, TrackOf(items).first)
    ensures ExprsBound(items + [IExpr(fn, args)])
  {
    hide ExprBound, TrackOf;
    var all := items + [IExpr(fn, args)];
    forall i | 0 <= i < |all| && all[i].IExpr? ensures ExprBound(all[i].args, TrackOf(all[..i]).first) {
      assert i < |items| ==> all[..i] == items[..i] && all[i] == items[i];
      assert all[..|items|] == items;
    }
  }

  lemma {:induction false} AcceptedPrefix(pre: seq<BodyClause>, c: BodyClause, attrs: map<Bytes, Val>,
                                          arity: map<Name, nat>)
    requires BodyAccepted(pre + [c], attrs, arity)
    ensures BodyAccepted(pre, attrs, arity) && ClauseAccepted(c, attrs, arity, TrackOf(Items(pre, attrs)).first)
  {
    hide ClauseAccepted, TrackOf, Items;
    var body := pre + [c];
    assert body[|pre|] == c && body[..|pre|] == pre;
    assert forall i :: 0 <= i < |pre| ==> pre[..i] == body[..i] && pre[i] == body[i];
  }

  lemma {:induction false} AcceptedIsShaped(c: BodyClause, attrs: map<Bytes, Val>, arity: map<Name, nat>,
                                            first: map<RVar, Ref>, k: nat)
    requires ClauseAccepted(c, attrs, arity, first)
    ensures ClauseShaped(c, arity)
    ensures if c.BExpr? then ExprBound(c.args, first) && ClauseItems(c, k, attrs) == [IExpr(c.fn, c.args)]
            else forall it :: it in ClauseItems(c, k, attrs) ==> it.ICell?
  {
    hide ExprBound;
  }

  lemma {:induction false} BoundClause(items: seq<Item>, c: BodyClause, k: nat, attrs: map<Bytes, Val>,
                                       arity: map<Name, nat>)
    requires ExprsBound(items) && ClauseAccepted(c, attrs, arity, TrackOf(items).first)
    ensures ExprsBound(items + ClauseItems(c, k, attrs))
  {
    AcceptedIsShaped(c, attrs, arity, TrackOf(items).first, k);
    hide TrackOf, ExprsBound, ExprBound, ClauseAccepted, ClauseItems, ClauseShaped;
    if c.BExpr? {
      BoundExpr(items, c.fn, c.args);
    } else {
      BoundCells(items, ClauseItems(c, k, attrs));
    }
  }

  lemma {:induction false} AcceptedShaped(body: seq<BodyClause>, attrs: map<Bytes, Val>, arity: map<Name, nat>)
    requires BodyAccepted(body, attrs, arity)
    ensures forall c :: c in body ==> ClauseShaped(c, arity)
  {
    hide TrackOf, Items, ExprBound;
    forall c | c in body ensures ClauseShaped(c, arity) {
      var i :| 0 <= i < |body| && body[i] == c;
      assert ClauseAccepted(body[i], attrs, arity, TrackOf(Items(body[..i], attrs)).first);
    }
  }

  lemma {:induction false} AcceptedStep(pre: seq<BodyClause>, c: BodyClause, attrs: map<Bytes, Val>, arity: map<Name,
                                        nat>)
    requires ClauseAccepted(c, attrs, arity, TrackOf(Items(pre, attrs)).first) && ExprsBound(Items(pre, attrs))
    ensures ExprsBound(Items(pre + [c], attrs))
  {
    hide TrackOf, Items, ExprsBound, ClauseAccepted, ClauseItems, Froms;
    BodySnoc(pre, c, {}, attrs);
    BoundClause(Items(pre, attrs), c, |Froms(pre, {})|, attrs, arity);
  }

  lemma {:induction false} NothingBound(attrs: map<Bytes, Val>)
    ensures ExprsBound(Items([], attrs))
  {
  }

  /** In an accepted body every expression's variables have been tracked before it. */
  lemma {:induction false} AcceptedBound(body: seq<BodyClause>, attrs: map<Bytes, Val>, arity: map<Name, nat>)
    requires BodyAccepted(body, attrs, arity)
    ensures ExprsBound(Items(body, attrs))
    decreases |body|
  {
    hide *;
    if body == [] {
      NothingBound(attrs);
    } else {
      var n := |body| - 1;
      var pre, c := body[..n], body[n];
      assert body == pre + [c];
      AcceptedPrefix(pre, c, attrs, arity);
      AcceptedBound(pre, attrs, arity);
      AcceptedStep(pre, c, attrs, arity);
    }
  }

  lemma {:induction false} CellsBelow(items: seq<Item>, rows: seq<Tuple>, u: Tuple)
    requires CellsIn(items, rows)
    ensures CellsIn(items, rows + [u])
  {
    forall it | it in items && it.ICell? ensures RefVal(rows + [u], it.r).Some? {
      assert RefVal(rows, it.r).Some?;
    }
  }

  lemma {:induction false} CellsOf(c: BodyClause, w: World, rule: Tables, delta: Tables, arity: map<Name, nat>,
                                   useDelta: set<Name>,
                                   rows: seq<Tuple>, u: Tuple)
    requires WorldFits(w) && TablesFit(rule, arity) && TablesFit(delta, arity) && ClauseShaped(c, arity) && IsTable(c)
    requires InSource(SourceOf(c, useDelta), w, rule, delta, u)
    ensures CellsIn(ClauseItems(c, |rows|, w.attrs), rows + [u])
  {
    hide TablesFit;
    if c.BApply? {
      FitRow(rule, arity, c.name, u);
      FitRow(delta, arity, c.name, u);
    }
  }

  lemma {:induction false} CellsConcat(a: seq<Item>, b: seq<Item>, rows: seq<Tuple>)
    requires CellsIn(a, rows) && CellsIn(b, rows)
    ensures CellsIn(a + b, rows)
  {
    hide RefVal;
    assert forall it :: it in a + b <==> it in a || it in b;
  }

  lemma {:induction false} LastCells(pre: seq<BodyClause>, c: BodyClause, w: World, rule: Tables, delta: Tables,
                                     arity: map<Name, nat>,
                                     useDelta: set<Name>, rows: seq<Tuple>)
    requires WorldFits(w) && TablesFit(rule, arity) && TablesFit(delta, arity) && ClauseShaped(c, arity)
    requires RowsIn(Froms(pre + [c], useDelta), w, rule, delta, rows)
    ensures RowsIn(Froms(pre, useDelta), w, rule, delta, RestOf(c, rows))
    ensures CellsIn(Items(pre, w.attrs), RestOf(c, rows)) ==> CellsIn(Items(pre + [c], w.attrs), rows)
  {
    var k, items := |Froms(pre, {})|, Items(pre, w.attrs);
    BodySnoc(pre, c, useDelta, w.attrs);
    SameFroms(pre, useDelta);
    hide Items, Froms, InSource, ClauseShaped, CellsIn, WorldFits, TablesFit, RestOf, ClauseItems;
    if IsTable(c) {
      var rest, u := rows[..k], rows[k];
      assert rows == rest + [u];
      hide RowsIn;
      RestIs(c, rest, u);
      PrefixRows(Froms(pre, useDelta), SourceOf(c, useDelta), w, rule, delta, rest, u);
      CellsOf(c, w, rule, delta, arity, useDelta, rest, u);
      if CellsIn(items, rest) {
        CellsBelow(items, rest, u);
        CellsConcat(items, ClauseItems(c, k, w.attrs), rows);
      }
    } else {
      hide RowsIn;
      RestIs(c, rows, []);
      assert Froms(pre, useDelta) + [] == Froms(pre, useDelta);
      NoCells(c, k, w.attrs, rows);
      if CellsIn(items, rows) {
        CellsConcat(items, ClauseItems(c, k, w.attrs), rows);
      }
    }
  }

  /** Every position of a body is a column of its table's row. */
  lemma {:induction false} RowsHaveCells(body: seq<BodyClause>, w: World, rule: Tables, delta: Tables,
                                         arity: map<Name, nat>, useDelta: set<Name>,
                                         rows: seq<Tuple>)
    requires Fitting(body, w, rule, delta, arity) && RowsIn(Froms(body, useDelta), w, rule, delta, rows)
    ensures CellsIn(Items(body, w.attrs), rows)
  {
    if body != [] {
      var n := |body| - 1;
      var pre, c := body[..n], body[n];
      assert body == pre + [c];
      FittingPrefix(body, w, rule, delta, arity);
      FittingParts(body, w, rule, delta, arity);
      hide Items, Froms, Fitting, ClauseShaped, RowsIn, CellsIn, WorldFits, TablesFit, RestOf;
      LastCells(pre, c, w, rule, delta, arity, useDelta, rows);
      RowsHaveCells(pre, w, rule, delta, arity, useDelta, RestOf(c, rows));
    }
  }

  lemma {:induction false} NoCells(c: BodyClause, k: nat, attrs: map<Bytes, Val>, rows: seq<Tuple>)
    requires !IsTable(c)
    ensures CellsIn(ClauseItems(c, k, attrs), rows)
  {
  }

  /** The head's values are those of its terms. */
  lemma {:induction false} HeadIs(head: seq<Term>, tr: Track, rows: seq<Tuple>, t: Tuple, sigma: Sigma)
    requires FirstsIn(tr, rows) && HeadAccepted(head, tr.first) && Within(SigmaOf(tr, rows), sigma)
    ensures IsTuple(ArgsOf(head, SigmaOf(tr, rows)), t) <==> TermsAre(head, sigma, t)
  {
    hide RefVal;
    var vals := ArgsOf(head, SigmaOf(tr, rows));
    if |t| == |head| {
      forall k | 0 <= k < |head| ensures vals[k] == Some(t[k]) <==> TermIs(head[k], sigma, t[k]) {
        assert head[k] in head;
      }
    }
  }

  /** The constants of the head and of the body can be told apart by position. */
  predicate Aligned(r: Rule, attrs: map<Bytes, Val>) {
    var ps := TrackOf(Items(r.body, attrs)).params;
    ps + ExprParams(r.head) == ExprParams(r.head) + ps
  }

  lemma {:induction false} AlignedParts(a: seq<Option<Val>>, h: seq<Option<Val>>)
    ensures a + h == h + a <==> (a + h)[..|h|] == h && Drop(a + h, |h|) == a
  {
    if (a + h)[..|h|] == h && Drop(a + h, |h|) == a {
      assert a + h == (a + h)[..|h|] + (a + h)[|h|..];
    }
    if a + h == h + a {
      assert (h + a)[..|h|] == h && (h + a)[|h|..] == a;
    }
  }

  ghost predicate StmtSetting(r: Rule, w: World, arity: map<Name, nat>, rule: Tables, delta: Tables) {
    RuleAccepted(r, w.attrs, arity) && Aligned(r, w.attrs) && WorldFits(w) && TablesFit(rule, arity)
      && TablesFit(delta, arity)
  }

  /** What the emitted statement asks of rows for its tables. */
  lemma {:induction false} StmtRows(r: Rule, w: World, arity: map<Name, nat>, rule: Tables, delta: Tables,
                                    useDelta: set<Name>, rows: seq<Tuple>, t: Tuple)
    requires StmtSetting(r, w, arity, rule, delta) && RowsIn(Froms(r.body, useDelta), w, rule, delta, rows)
    ensures var st, tr := Emitted(r, w.attrs, useDelta), TrackOf(Items(r.body, w.attrs)); var sigma :=
            SigmaOf(tr, rows);
            && CellsIn(Items(r.body, w.attrs), rows) && Good(tr, rows) && AllVarsIn(Items(r.body, w.attrs), sigma.Keys)
            && (CondsHold(st.where, w, rows, Drop(st.params, HolesIn(st.head)))
                && IsTuple(OperandVals(st.head, rows, st.params), t)
                <==> ItemsHold(Items(r.body, w.attrs), w, rows, sigma) && IsTuple(ArgsOf(r.head, sigma), t))
  {
    var items := Items(r.body, w.attrs);
    var tr := TrackOf(items);
    assert HeadAccepted(r.head, tr.first);
    AcceptedBound(r.body, w.attrs, arity);
    AcceptedShaped(r.body, w.attrs, arity);
    assert Fitting(r.body, w, rule, delta, arity);
    hide Items, TrackOf, Froms, RowsIn, Fitting, BodyAccepted, ItemsHold, ExprsBound, CellsIn, WorldFits, TablesFit,
      ClauseShaped, CondsHold, AllVarsIn, SigmaOf, FirstsIn;
    RowsHaveCells(r.body, w, rule, delta, arity, useDelta, rows);
    TrackMeans(items, w, rows);
    hide CondsHoles;
    assert ExprBound(r.head, tr.first);
    ExprVals(r.head, tr, rows);
    AlignedParts(tr.params, ExprParams(r.head));
    ValsPrefix(ExprOperands(r.head, tr.first), rows, ExprParams(r.head), tr.params);
    CondsConcat(tr.where, tr.joins, w, rows, tr.params, []);
    assert tr.params + [] == tr.params;
  }

  lemma {:induction false} SettingFits(r: Rule, w: World, arity: map<Name, nat>, rule: Tables, delta: Tables)
    requires StmtSetting(r, w, arity, rule, delta)
    ensures Fitting(r.body, w, rule, delta, arity) && HeadAccepted(r.head, TrackOf(Items(r.body, w.attrs)).first)
  {
    hide WorldFits, TablesFit, ClauseShaped, Items, TrackOf, BodyAccepted, Aligned;
    AcceptedBound(r.body, w.attrs, arity);
    AcceptedShaped(r.body, w.attrs, arity);
  }

  lemma {:induction false} InsertsDerives(r: Rule, w: World, arity: map<Name, nat>, rule: Tables, delta: Tables,
                                          useDelta: set<Name>, t: Tuple)
    requires StmtSetting(r, w, arity, rule, delta) && Inserts(Emitted(r, w.attrs, useDelta), w, rule, delta, t)
    ensures Derives(r, w, Reading(rule, delta, useDelta), t)
  {
    var st, tr := Emitted(r, w.attrs, useDelta), TrackOf(Items(r.body, w.attrs));
    SettingFits(r, w, arity, rule, delta);
    hide TrackOf, Items, Froms, CondsHold, OperandVals, IsTuple, RowsIn, ItemsHold, CellsIn, AllVarsIn, Fitting,
      StmtSetting, SigmaOf, Reading, BodyHolds, TermsAre, HeadAccepted, Counted, FirstsIn;
    var rows: seq<Tuple> :| RowsIn(st.from, w, rule, delta, rows)
      && CondsHold(st.where, w, rows, Drop(st.params, HolesIn(st.head)))
                            && IsTuple(OperandVals(st.head, rows, st.params), t);
    StmtRows(r, w, arity, rule, delta, useDelta, rows, t);
    var sigma := SigmaOf(tr, rows);
    RowsGiveBody(r.body, w, rule, delta, arity, useDelta, rows, sigma);
    HeadIs(r.head, tr, rows, t, sigma);
  }

  lemma {:induction false} DerivesInserts(r: Rule, w: World, arity: map<Name, nat>, rule: Tables, delta: Tables,
                                          useDelta: set<Name>, t: Tuple)
    requires StmtSetting(r, w, arity, rule, delta) && Derives(r, w, Reading(rule, delta, useDelta), t)
    ensures Inserts(Emitted(r, w.attrs, useDelta), w, rule, delta, t)
  {
    var st, tr := Emitted(r, w.attrs, useDelta), TrackOf(Items(r.body, w.attrs));
    SettingFits(r, w, arity, rule, delta);
    hide TrackOf, Items, Froms, CondsHold, OperandVals, IsTuple, RowsIn, ItemsHold, CellsIn, AllVarsIn, Fitting,
      StmtSetting, SigmaOf, Reading, BodyHolds, TermsAre, HeadAccepted, Counted, FirstsIn, Within;
    var sigma: Sigma :| BodyHolds(r.body, w, Reading(rule, delta, useDelta), sigma) && TermsAre(r.head, sigma, t);
    var rows := BodyGivesRows(r.body, w, rule, delta, arity, useDelta, sigma);
    StmtRows(r, w, arity, rule, delta, useDelta, rows, t);
    ItemsDetermine(Items(r.body, w.attrs), w, rows, sigma);
    SameItems(Items(r.body, w.attrs), w, rows, SigmaOf(tr, rows), sigma);
    HeadIs(r.head, tr, rows, t, sigma);
  }

  /** The statement emitted for an accepted rule inserts exactly the tuples that the rule
      derives, its applications reading the derived tables or the deltas as told. */
  lemma {:induction false} StatementIsRule(r: Rule, w: World, arity: map<Name, nat>, rule: Tables, delta: Tables,
                                           useDelta: set<Name>, t: Tuple)
    requires RuleAccepted(r, w.attrs, arity) && Aligned(r, w.attrs) && WorldFits(w) && TablesFit(rule, arity)
             && TablesFit(delta, arity)
    ensures Inserts(Emitted(r, w.attrs, useDelta), w, rule, delta, t)
            <==> Derives(r, w, Reading(rule, delta, useDelta), t)
  {
    assert StmtSetting(r, w, arity, rule, delta);
    hide *;
    if Inserts(Emitted(r, w.attrs, useDelta), w, rule, delta, t) {
      InsertsDerives(r, w, arity, rule, delta, useDelta, t);
    }
    if Derives(r, w, Reading(rule, delta, useDelta), t) {
      DerivesInserts(r, w, arity, rule, delta, useDelta, t);
    }
  }

  // ---------------------------------------------------------------------
  // Head constants
  // ---------------------------------------------------------------------

  /** The constants of the head are the first of all parameters, where its placeholders
      look for them; ruleBodyToSQL appends them last. */
  predicate HeadMatches(r: Rule, attrs: map<Bytes, Val>) {
    Emitted(r, attrs, {}).params[..|ExprParams(r.head)|] == ExprParams(r.head)
  }

  lemma {:induction false} AlignedMatches(r: Rule, attrs: map<Bytes, Val>)
    requires Aligned(r, attrs)
    ensures HeadMatches(r, attrs)
  {
    hide TrackOf, Items, ExprParams;
    AlignedParts(TrackOf(Items(r.body, attrs)).params, ExprParams(r.head));
  }

  /** A tuple that the head's operands give with some parameters, and its terms with some
      values, shows that the first parameters are the head's constants. */
  lemma {:induction false} HeadTakes(head: seq<Term>, tr: Track, rows: seq<Tuple>, ps: seq<Option<Val>>, t: Tuple,
                                     sigma: Sigma)
    requires HeadAccepted(head, tr.first) && |ExprParams(head)| <= |ps|
    requires IsTuple(OperandVals(ExprOperands(head, tr.first), rows, ps), t) && TermsAre(head, sigma, t)
    ensures ps[..|ExprParams(head)|] == ExprParams(head)
    decreases |head|
  {
    if head != [] {
      var h, rest, ps' := head[0], head[1..], Drop(ps, Holes(ExprOperand(head[0], tr.first)));
      assert head == [h] + rest && h in head;
      OperandsCons(h, rest, tr.first);
      ParamsCons(h, rest);
      ValsCons(ExprOperand(h, tr.first), ExprOperands(rest, tr.first), rows, ps);
      TupleRest(OperandVal(ExprOperand(h, tr.first), rows, ps), OperandVals(ExprOperands(rest, tr.first), rows, ps'),
                t);
      TermsRest(h, rest, sigma, t);
      assert HeadAccepted(rest, tr.first);
      hide ExprOperands, OperandVals, IsTuple, TermsAre, HeadAccepted;
      HeadTakes(rest, tr, rows, ps', t[1..], sigma);
    }
  }

  lemma {:induction false} TupleRest(v: Option<Val>, vals: seq<Option<Val>>, t: Tuple)
    requires IsTuple([v] + vals, t)
    ensures t != [] && v == Some(t[0]) && IsTuple(vals, t[1..])
  {
    assert ([v] + vals)[0] == v;
    assert forall k :: 0 <= k < |vals| ==> vals[k] == ([v] + vals)[k + 1];
  }

  lemma {:induction false} TermsRest(h: Term, rest: seq<Term>, sigma: Sigma, t: Tuple)
    requires TermsAre([h] + rest, sigma, t)
    ensures t != [] && TermIs(h, sigma, t[0]) && TermsAre(rest, sigma, t[1..])
  {
    hide TermIs;
    assert ([h] + rest)[0] == h;
    assert forall k :: 0 <= k < |rest| ==> rest[k] == ([h] + rest)[k + 1];
  }

  lemma {:induction false} EmittedHead(r: Rule, attrs: map<Bytes, Val>, useDelta: set<Name>)
    ensures Emitted(r, attrs, useDelta).head == Emitted(r, attrs, {}).head
            && Emitted(r, attrs, useDelta).params == Emitted(r, attrs, {}).params
  {
  }

  /** If they do not match, the statement never inserts a tuple that the rule derives,
      whatever the data and the tables. */
  lemma {:induction false} MismatchedNeverRight(r: Rule, w: World, arity: map<Name, nat>, rule: Tables, delta: Tables,
                                                useDelta: set<Name>, I: Interp, t: Tuple)
    requires RuleAccepted(r, w.attrs, arity) && !HeadMatches(r, w.attrs)
    ensures !(Inserts(Emitted(r, w.attrs, useDelta), w, rule, delta, t) && Derives(r, w, I, t))
  {
    var st, tr := Emitted(r, w.attrs, useDelta), TrackOf(Items(r.body, w.attrs));
    assert HeadAccepted(r.head, tr.first) && |ExprParams(r.head)| <= |st.params|;
    assert st.params == Emitted(r, w.attrs, {}).params;
    hide TrackOf, Items, Froms, RowsIn, CondsHold, OperandVals, ExprOperands, ExprParams, IsTuple, BodyHolds,
      TermsAre, HeadAccepted, BodyAccepted;
    if Inserts(st, w, rule, delta, t) && Derives(r, w, I, t) {
      var rows: seq<Tuple> :| IsTuple(OperandVals(st.head, rows, st.params), t);
      var sigma: Sigma :| TermsAre(r.head, sigma, t);
      HeadTakes(r.head, tr, rows, st.params, t, sigma);
    }
  }

  /** So on given data its statement is right exactly when there is nothing to derive and
      nothing is inserted. */
  lemma {:induction false} MismatchedExactly(r: Rule, w: World, arity: map<Name, nat>, rule: Tables, delta: Tables,
                                             useDelta: set<Name>)
    requires RuleAccepted(r, w.attrs, arity) && !HeadMatches(r, w.attrs)
    ensures var st, I := Emitted(r, w.attrs, useDelta), Reading(rule, delta, useDelta);
            (forall t :: Inserts(st, w, rule, delta, t) <==> Derives(r, w, I, t))
            <==> forall t :: !Inserts(st, w, rule, delta, t) && !Derives(r, w, I, t)
  {
    var st, I := Emitted(r, w.attrs, useDelta), Reading(rule, delta, useDelta);
    hide *;
    forall t ensures !(Inserts(st, w, rule, delta, t) && Derives(r, w, I, t)) {
      MismatchedNeverRight(r, w, arity, rule, delta, useDelta, I, t);
    }
  }

  // ---------------------------------------------------------------------
  // A head constant that goes astray
  // ---------------------------------------------------------------------

  /** p(x, 7) :- [x _ 9 _]. */
  function ConstantHead(): Rule {
    Rule([112], [TVar([120]), TConst(7)], [BPattern(TVar([120]), ABlank, TConst(9), TBlank)])
  }

  lemma {:induction false} FourItems(a: Item, b: Item, c: Item, d: Item)
    ensures TrackOf([a, b, c, d]) == Tracked(Tracked(Tracked(Tracked(NOTHING, a), b), c), d)
  {
    var none: seq<Item> := [];
    assert TrackOf(none) == NOTHING;
    TrackSnoc(none, a);
    assert none + [a] == [a];
    hide TrackOf, Tracked;
    TrackSnoc([a], b);
    TrackSnoc([a, b], c);
    TrackSnoc([a, b, c], d);
    assert [a] + [b] == [a, b] && [a, b] + [c] == [a, b, c] && [a, b, c] + [d] == [a, b, c, d];
  }

  lemma {:induction false} ConstantHeadItems()
    ensures var tr := TrackOf(Items(ConstantHead().body, map[]));
            tr == Track(map[[120] := Ref(0, 0)], [], [CEq(Ref(0, 2), OHole)], [Some(9)])
    ensures Froms(ConstantHead().body, {}) == [SDatoms]
  {
    var body := ConstantHead().body;
    var items := [ICell(TBlank, Ref(0, 1)), ICell(TVar([120]), Ref(0, 0)), ICell(TConst(9), Ref(0, 2)),
                  ICell(TBlank, Ref(0, 3))];
    assert Items(body, map[]) == items && Froms(body, {}) == [SDatoms] by {
      assert body[..0] == [] && Froms(body[..0], {}) == [] && Items(body[..0], map[]) == [];
    }
    FourItems(items[0], items[1], items[2], items[3]);
    hide TrackOf, Items, Froms;
    assert items == [items[0], items[1], items[2], items[3]];
  }

  /** Its statement takes the head's constant for the body's and the body's for the
      head's: from a datom whose value is 7 it inserts a tuple that ends in 9, though the
      rule derives nothing. */
  lemma {:induction false} ConstantGoesAstray(w: World)
    requires w.attrs == map[] && w.datoms == {[1, 5, 7, 0]}
    ensures Inserts(Emitted(ConstantHead(), w.attrs, {}), w, map[], map[], [1, 9])
    ensures forall I, t :: !Derives(ConstantHead(), w, I, t)
  {
    ConstantHeadItems();
    var st, rows := Emitted(ConstantHead(), w.attrs, {}), [[1, 5, 7, 0]];
    hide TrackOf, Items, Froms;
    var h := ConstantHead().head;
    ParamsCons(h[0], [h[1]]);
    ParamsCons(h[1], []);
    assert h == [h[0]] + [h[1]] && [h[1]] == [h[1]] + [];
    assert ExprParams(h) == [Some(7)];
    assert st.params == [Some(9), Some(7)];
    assert st.head == [ORef(Ref(0, 0)), OHole];
    assert HolesIn(st.head) == 1 by { assert st.head[1..] == [OHole] && [OHole][1..] == []; }
    assert Drop(st.params, 1) == [Some(7)];
    assert st.where == [CEq(Ref(0, 2), OHole)];
    OneCond(st.where[0], w, rows, [Some(7)]);
    assert RowsIn(st.from, w, map[], map[], rows);
    assert st.head[1..] == [OHole] && [OHole][1..] == [] && Drop(st.params, 0) == st.params;
    assert OperandVals([OHole], rows, st.params) == [Some(9)];
    assert OperandVals(st.head, rows, st.params) == [Some(1), Some(9)];
    assert IsTuple(OperandVals(st.head, rows, st.params), [1, 9]);
    forall I, t ensures !Derives(ConstantHead(), w, I, t) {
      NoNine(w, I, t);
    }
  }

  lemma {:induction false} NoNine(w: World, I: Interp, t: Tuple)
    requires w.datoms == {[1, 5, 7, 0]}
    ensures !Derives(ConstantHead(), w, I, t)
  {
    var c := ConstantHead().body[0];
    forall sigma: Sigma ensures !BodyHolds(ConstantHead().body, w, I, sigma) {
      assert c in ConstantHead().body;
      assert TermsAre(PatternTerms(c, w.attrs), sigma, [1, 5, 7, 0])
        ==> TermIs(PatternTerms(c, w.attrs)[2], sigma, [1, 5, 7, 0][2]);
    }
  }
}
