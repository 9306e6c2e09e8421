/** Rules (query/recursive.go): their meaning, and the INSERT ... SELECT statement that a
    rule body becomes. Values are abstract here: the statements of the original compare
    the BLOB of a value with the integer of an entity. */
module Rules {
  import opened Prelude

  type Val = int
  type Name = Bytes
  type RVar = Bytes
  type Tuple = seq<Val>

  datatype Term = TVar(x: RVar) | TConst(c: Val) | TBlank

  /** The attribute position of a pattern; a constant that is not a string is refused. */
  datatype AttrTerm = AVar(x: RVar) | AIdent(ident: Bytes) | AOther | ABlank

  /** BOther stands for the clauses a rule body may not hold, (not ...) and (or ...). */
  datatype BodyClause =
    | BPattern(e: Term, a: AttrTerm, v: Term, tx: Term)
    | BApply(name: Name, args: seq<Term>)
    | BExpr(fn: Bytes, args: seq<Term>)
    | BOther

  datatype Rule = Rule(name: Name, head: seq<Term>, body: seq<BodyClause>)

  /** Attribute ids, and the comparisons and functions of the database. A blank argument
      of an expression is NULL. */
  datatype World = World(attrs: map<Bytes, Val>, datoms: set<Tuple>, holds: (Bytes, seq<Option<Val>>) -> bool)

  // ---------------------------------------------------------------------
  // Meaning
  // ---------------------------------------------------------------------

  type Sigma = map<RVar, Val>

  /** Which tuples a rule name stands for. */
  type Interp = (Name, Tuple) -> bool

  predicate TermIs(t: Term, sigma: Sigma, v: Val) {
    match t
    case TVar(x) => x in sigma && sigma[x] == v
    case TConst(c) => c == v
    case TBlank => true
  }

  /** The attribute position as a term; unknown attributes are refused elsewhere. */
  function AttrAsTerm(a: AttrTerm, attrs: map<Bytes, Val>): Term {
    match a
    case AVar(x) => TVar(x)
    case AIdent(i) => if i in attrs then TConst(attrs[i]) else TBlank
    case _ => TBlank
  }

  predicate TermsAre(ts: seq<Term>, sigma: Sigma, u: Tuple) {
    |u| == |ts| && forall k :: 0 <= k < |ts| ==> TermIs(ts[k], sigma, u[k])
  }

  function PatternTerms(c: BodyClause, attrs: map<Bytes, Val>): seq<Term>
    requires c.BPattern?
  {
    [c.e, AttrAsTerm(c.a, attrs), c.v, c.tx]
  }

  function ArgOf(t: Term, sigma: Sigma): Option<Val> {
    match t
    case TVar(x) => if x in sigma then Some(sigma[x]) else None
    case TConst(c) => Some(c)
    case TBlank => None
  }

  function ArgsOf(ts: seq<Term>, sigma: Sigma): seq<Option<Val>> {
    seq(|ts|, k requires 0 <= k < |ts| => ArgOf(ts[k], sigma))
  }

  ghost predicate ClauseHolds(c: BodyClause, w: World, I: Interp, sigma: Sigma) {
    match c
    case BPattern(_, _, _, _) => exists d :: d in w.datoms && TermsAre(PatternTerms(c, w.attrs), sigma, d)
    case BApply(n, args) => exists u: Tuple :: I(n, u) && TermsAre(args, sigma, u)
    case BExpr(fn, args) => w.holds(fn, ArgsOf(args, sigma))
    case BOther => false
  }

  ghost predicate BodyHolds(body: seq<BodyClause>, w: World, I: Interp, sigma: Sigma) {
    forall c :: c in body ==> ClauseHolds(c, w, I, sigma)
  }

  /** The rule derives the tuple from an interpretation. */
  ghost predicate Derives(r: Rule, w: World, I: Interp, t: Tuple) {
    exists sigma: Sigma :: BodyHolds(r.body, w, I, sigma) && TermsAre(r.head, sigma, t)
  }

  ghost predicate Included(I: Interp, J: Interp) {
    forall n, u :: I(n, u) ==> J(n, u)
  }

  lemma {:induction false} ClauseMonotone(c: BodyClause, w: World, I: Interp, J: Interp, sigma: Sigma)
    requires Included(I, J) && ClauseHolds(c, w, I, sigma)
    ensures ClauseHolds(c, w, J, sigma)
  {
    hide TermsAre, PatternTerms, ArgsOf;
  }

  lemma {:induction false} DerivesMonotone(r: Rule, w: World, I: Interp, J: Interp, t: Tuple)
    requires Included(I, J) && Derives(r, w, I, t)
    ensures Derives(r, w, J, t)
  {
    hide ClauseHolds, TermsAre, Included;
    var sigma: Sigma :| BodyHolds(r.body, w, I, sigma) && TermsAre(r.head, sigma, t);
    forall c | c in r.body ensures ClauseHolds(c, w, J, sigma) {
      ClauseMonotone(c, w, I, J, sigma);
    }
    assert BodyHolds(r.body, w, J, sigma);
  }

  // ---------------------------------------------------------------------
  // Statements
  // ---------------------------------------------------------------------

  /** A column of the i-th table of the FROM clause. */
  datatype Ref = Ref(table: nat, col: nat)

  datatype ROperand = ORef(r: Ref) | OHole

  datatype Cond = CEq(l: Ref, r: ROperand) | CExpr(fn: Bytes, args: seq<ROperand>)

  datatype Source = SDatoms | SRule(n: Name) | SDelta(n: Name)

  /** INSERT OR IGNORE INTO _rule_<into> SELECT DISTINCT <head> FROM <from> WHERE <where>,
      its placeholders numbered in the order of the text. */
  datatype Stmt = Stmt(into: Name, head: seq<ROperand>, from: seq<Source>, where: seq<Cond>, params: seq<Option<Val>>)

  type Tables = map<Name, set<Tuple>>

  function TuplesOf(t: Tables, n: Name): set<Tuple> {
    if n in t then t[n] else {}
  }

  predicate InSource(s: Source, w: World, rule: Tables, delta: Tables, u: Tuple) {
    match s
    case SDatoms => u in w.datoms
    case SRule(n) => u in TuplesOf(rule, n)
    case SDelta(n) => u in TuplesOf(delta, n)
  }

  function RefVal(rows: seq<Tuple>, r: Ref): Option<Val> {
    if r.table < |rows| && r.col < |rows[r.table]| then Some(rows[r.table][r.col]) else None
  }

  function Drop(ps: seq<Option<Val>>, n: nat): seq<Option<Val>> {
    if n <= |ps| then ps[n..] else []
  }

  function Holes(o: ROperand): nat { if o.OHole? then 1 else 0 }

  function HolesIn(os: seq<ROperand>): nat {
    if os == [] then 0 else Holes(os[0]) + HolesIn(os[1..])
  }

  function CondHoles(c: Cond): nat {
    match c
    case CEq(_, r) => Holes(r)
    case CExpr(_, args) => HolesIn(args)
  }

  function CondsHoles(cs: seq<Cond>): nat {
    if cs == [] then 0 else CondHoles(cs[0]) + CondsHoles(cs[1..])
  }

  function OperandVal(o: ROperand, rows: seq<Tuple>, ps: seq<Option<Val>>): Option<Val> {
    if o.ORef? then RefVal(rows, o.r) else if ps == [] then None else ps[0]
  }

  function OperandVals(os: seq<ROperand>, rows: seq<Tuple>, ps: seq<Option<Val>>): (r: seq<Option<Val>>)
    ensures |r| == |os|
  {
    if os == [] then [] else [OperandVal(os[0], rows, ps)] + OperandVals(os[1..], rows, Drop(ps, Holes(os[0])))
  }

  /** NULL equals nothing. */
  predicate CondHolds(c: Cond, w: World, rows: seq<Tuple>, ps: seq<Option<Val>>) {
    match c
    case CEq(l, r) => RefVal(rows, l).Some? && RefVal(rows, l) == OperandVal(r, rows, ps)
    case CExpr(fn, args) => w.holds(fn, OperandVals(args, rows, ps))
  }

  predicate CondsHold(cs: seq<Cond>, w: World, rows: seq<Tuple>, ps: seq<Option<Val>>) {
    cs == [] || (CondHolds(cs[0], w, rows, ps) && CondsHold(cs[1..], w, rows, Drop(ps, CondHoles(cs[0]))))
  }

  ghost predicate RowsIn(from: seq<Source>, w: World, rule: Tables, delta: Tables, rows: seq<Tuple>) {
    |rows| == |from| && forall i :: 0 <= i < |from| ==> InSource(from[i], w, rule, delta, rows[i])
  }

  predicate IsTuple(vals: seq<Option<Val>>, t: Tuple) {
    |vals| == |t| && forall k :: 0 <= k < |t| ==> vals[k] == Some(t[k])
  }

  /** The statement inserts the tuple: the head takes the first parameters. */
  ghost predicate Inserts(st: Stmt, w: World, rule: Tables, delta: Tables, t: Tuple) {
    exists rows: seq<Tuple> ::
      && RowsIn(st.from, w, rule, delta, rows)
      && CondsHold(st.where, w, rows, Drop(st.params, HolesIn(st.head)))
      && IsTuple(OperandVals(st.head, rows, st.params), t)
  }

  // ---------------------------------------------------------------------
  // What ruleBodyToSQL emits
  // ---------------------------------------------------------------------

  /** The positions of a body in the order they are visited, and its expressions. */
  datatype Item = ICell(t: Term, r: Ref) | IExpr(fn: Bytes, args: seq<Term>)

  function Cells(ts: seq<Term>, table: nat): (r: seq<Item>)
    ensures |r| == |ts| && forall k :: 0 <= k < |ts| ==> r[k] == ICell(ts[k], Ref(table, k))
  {
    seq(|ts|, k requires 0 <= k < |ts| => ICell(ts[k], Ref(table, k)))
  }

  /** A pattern's attribute is visited before its entity. */
  function ClauseItems(c: BodyClause, table: nat, attrs: map<Bytes, Val>): seq<Item> {
    match c
    case BPattern(e, a, v, tx) =>
      [ICell(AttrAsTerm(a, attrs), Ref(table, 1)), ICell(e, Ref(table, 0)), ICell(v, Ref(table, 2)),
       ICell(tx, Ref(table, 3))]
    case BApply(_, args) => Cells(args, table)
    case BExpr(fn, args) => [IExpr(fn, args)]
    case BOther => []
  }

  predicate IsTable(c: BodyClause) { c.BPattern? || c.BApply? }

  function SourceOf(c: BodyClause, useDelta: set<Name>): Source
    requires IsTable(c)
  {
    if c.BPattern? then SDatoms else if c.name in useDelta then SDelta(c.name) else SRule(c.name)
  }

  function Froms(body: seq<BodyClause>, useDelta: set<Name>): seq<Source> {
    if body == [] then []
    else
      var c := body[|body| - 1];
      Froms(body[..|body| - 1], useDelta) + if IsTable(c) then [SourceOf(c, useDelta)] else []
  }

  function Items(body: seq<BodyClause>, attrs: map<Bytes, Val>): seq<Item> {
    if body == [] then []
    else Items(body[..|body| - 1], attrs) + ClauseItems(body[|body| - 1], |Froms(body[..|body| - 1], {})|, attrs)
  }

  /** varTracker, with the conditions and parameters gathered beside it. */
  datatype Track = Track(first: map<RVar, Ref>, joins: seq<Cond>, where: seq<Cond>, params: seq<Option<Val>>)

  function ExprOperand(t: Term, first: map<RVar, Ref>): ROperand {
    if t.TVar? && t.x in first then ORef(first[t.x]) else OHole
  }

  function ExprOperands(ts: seq<Term>, first: map<RVar, Ref>): (r: seq<ROperand>)
    ensures |r| == |ts| && forall k :: 0 <= k < |ts| ==> r[k] == ExprOperand(ts[k], first)
  {
    seq(|ts|, k requires 0 <= k < |ts| => ExprOperand(ts[k], first))
  }

  function ParamOf(t: Term): seq<Option<Val>> {
    match t
    case TVar(_) => []
    case TConst(c) => [Some(c)]
    case TBlank => [None]
  }

  /** The constants among terms, in order; a blank is NULL. */
  function ExprParams(ts: seq<Term>): seq<Option<Val>> {
    if ts == [] then [] else ParamOf(ts[0]) + ExprParams(ts[1..])
  }

  function Tracked(tr: Track, it: Item): Track {
    match it
    case ICell(TVar(x), r) =>
      if x in tr.first then tr.(joins := tr.joins + [CEq(tr.first[x], ORef(r))]) else tr.(first := tr.first[x := r])
    case ICell(TConst(c), r) => tr.(where := tr.where + [CEq(r, OHole)], params := tr.params + [Some(c)])
    case ICell(TBlank, _) => tr
    case IExpr(fn, args) => tr.(where := tr.where + [CExpr(fn, ExprOperands(args, tr.first))], params :=
                                tr.params + ExprParams(args))
  }

  const NOTHING: Track := Track(map[], [], [], [])

  function TrackOf(items: seq<Item>): Track {
    if items == [] then NOTHING else Tracked(TrackOf(items[..|items| - 1]), items[|items| - 1])
  }

  /** The constants of the head are appended after all other parameters. */
  function Emitted(r: Rule, attrs: map<Bytes, Val>, useDelta: set<Name>): Stmt {
    var tr := TrackOf(Items(r.body, attrs));
    Stmt(r.name, ExprOperands(r.head, tr.first), Froms(r.body, useDelta), tr.where + tr.joins,
         tr.params + ExprParams(r.head))
  }

  // ---------------------------------------------------------------------
  // Which rules are accepted
  // ---------------------------------------------------------------------

  datatype RuleError =
    | NoRules | InconsistentArity | AttributeNotString | UnknownAttribute | UnknownRule | WrongArity
    | UnresolvedVariable | UnsupportedClause | UnboundHead | BlankHead

  /** The variables of an expression stand in clauses before it. */
  predicate ExprBound(args: seq<Term>, first: map<RVar, Ref>) {
    forall t :: t in args && t.TVar? ==> t.x in first
  }

  predicate ClauseAccepted(c: BodyClause, attrs: map<Bytes, Val>, arity: map<Name, nat>, first: map<RVar, Ref>) {
    match c
    case BPattern(_, a, _, _) => a != AOther && (a.AIdent? ==> a.ident in attrs)
    case BApply(n, args) => n in arity && |args| == arity[n]
    case BExpr(_, args) => ExprBound(args, first)
    case BOther => false
  }

  ghost predicate BodyAccepted(body: seq<BodyClause>, attrs: map<Bytes, Val>, arity: map<Name, nat>) {
    forall i :: 0 <= i < |body| ==> ClauseAccepted(body[i], attrs, arity, TrackOf(Items(body[..i], attrs)).first)
  }

  predicate HeadAccepted(head: seq<Term>, first: map<RVar, Ref>) {
    forall t :: t in head ==> t != TBlank && (t.TVar? ==> t.x in first)
  }

  ghost predicate RuleAccepted(r: Rule, attrs: map<Bytes, Val>, arity: map<Name, nat>) {
    BodyAccepted(r.body, attrs, arity) && HeadAccepted(r.head, TrackOf(Items(r.body, attrs)).first)
  }
}
