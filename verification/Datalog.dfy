/** Datalog queries (query/ast.go) and their meaning: the assignments of values to
    variables that satisfy every clause. Nothing here mentions tables or SQL. */
module Datalog {
  import opened Prelude
  import opened Values
  import opened Store
  import opened Sql

  type Var = Bytes

  /** A position of a pattern. A constant nil binds nothing. */
  datatype Elem = EVar(x: Var) | EConst(c: Value) | EBlank

  datatype Pattern = Pattern(e: Elem, a: Elem, v: Elem, tx: Elem)

  /** [(fn args...)] without an output binding. */
  datatype Expr = Expr(fn: Bytes, args: seq<Elem>)

  datatype Simple = SPattern(p: Pattern) | SExpr(x: Expr)

  /** A clause; the body of a (not ...) holds patterns and expressions. */
  datatype Clause = CSimple(s: Simple) | CNot(body: seq<Simple>)

  datatype Query = Query(find: seq<Var>, where: seq<Clause>, ins: seq<Var>)

  // ---------------------------------------------------------------------
  // Values
  // ---------------------------------------------------------------------

  /** What a variable ranges over. Encoded is a value read as a BLOB with its type:
      bytes, or any value in a pattern whose attribute is not given. */
  datatype DVal = Plain(v: SqlVal) | Encoded(t: ValueType, b: Bytes)

  /** The cell a value is compared as. */
  function Cmp(d: DVal): SqlVal {
    match d
    case Plain(v) => v
    case Encoded(_, b) => SBlob(b)
  }

  /** The value type of a pattern's attribute, when the attribute is given. */
  function PatType(p: Pattern, s: Schema): Option<ValueType> {
    if p.a.EConst? && p.a.c.VString? && p.a.c.s in s.byIdent then Some(s.byIdent[p.a.c.s].valueType) else None
  }

  /** The value that an encoded v stands for in a position of the given type. */
  function Stored(t: Option<ValueType>, r: Row): DVal {
    if t.Some? && TypedColumnOf(t.value).Some? then Plain(TypedCellsOf(r.fact.v,
                                                                       t.value).Get(TypedColumnOf(t.value).value))
    else Encoded(r.vtype, r.fact.v)
  }

  /** The value of a row in a position of a pattern. */
  function CellAt(p: Pattern, s: Schema, col: Column, r: Row): DVal {
    match col
    case ColE => Plain(SInt(r.fact.e))
    case ColA => Plain(SInt(r.fact.a))
    case ColTx => Plain(SInt(r.tx))
    case _ => Stored(PatType(p, s), r)
  }

  // ---------------------------------------------------------------------
  // Satisfaction
  // ---------------------------------------------------------------------

  type Assignment = map<Var, DVal>

  predicate Bound(el: Elem) { el.EConst? && el.c != VNil }

  /** The constants of a pattern match a row. */
  predicate ConstsMatch(p: Pattern, s: Schema, r: Row) {
    && (Bound(p.e) ==> SqlEq(SInt(r.fact.e), Param(p.e.c)))
    && (Bound(p.a) ==> p.a.c.VString? && p.a.c.s in s.byIdent && r.fact.a == s.byIdent[p.a.c.s].id)
    && (Bound(p.v) ==> SqlEq(Cmp(CellAt(p, s, ColV, r)), Param(p.v.c)))
    && (Bound(p.tx) ==> SqlEq(SInt(r.tx), Param(p.tx.c)))
  }

  /** The variable occurrences of a pattern, in the order e, a, v, tx. */
  function Occurs(p: Pattern): seq<(Var, Column)> {
    VarAt(p.e, ColE) + VarAt(p.a, ColA) + VarAt(p.v, ColV) + VarAt(p.tx, ColTx)
  }

  function VarAt(el: Elem, col: Column): seq<(Var, Column)> {
    if el.EVar? then [(el.x, col)] else []
  }

  function ElemAt(p: Pattern, col: Column): Elem {
    match col
    case ColE => p.e
    case ColA => p.a
    case ColTx => p.tx
    case _ => p.v
  }

  predicate Position(col: Column) { col == ColE || col == ColA || col == ColV || col == ColTx }

  /** x stands at col in p. */
  predicate OccursAt(p: Pattern, x: Var, col: Column) {
    Position(col) && ElemAt(p, col) == EVar(x)
  }

  /** A row is an instance of a pattern under an assignment. */
  ghost predicate Matches(p: Pattern, s: Schema, sigma: Assignment, r: Row) {
    && ConstsMatch(p, s, r)
    && forall x, col :: OccursAt(p, x, col) ==> x in sigma && sigma[x] == CellAt(p, s, col, r)
  }

  ghost predicate PatternHolds(p: Pattern, s: Schema, sigma: Assignment, rel: set<Row>) {
    exists r :: r in rel && Matches(p, s, sigma, r)
  }

  /** The six built-in comparisons. */
  function Builtin(fn: Bytes): Option<Op> {
    if fn == [60] then Some(Lt)
    else if fn == [62] then Some(Gt)
    else if fn == [60, 61] then Some(Le)
    else if fn == [62, 61] then Some(Ge)
    else if fn == [61] then Some(Eq)
    else if fn == [33, 61] then Some(Ne)
    else None
  }

  function ArgValue(el: Elem, sigma: Assignment): SqlVal {
    match el
    case EVar(x) => if x in sigma then Cmp(sigma[x]) else SNull
    case EConst(c) => Param(c)
    case EBlank => SNull
  }

  function ArgValues(args: seq<Elem>, sigma: Assignment): seq<SqlVal> {
    seq(|args|, i requires 0 <= i < |args| => ArgValue(args[i], sigma))
  }

  predicate ExprHolds(x: Expr, sigma: Assignment, udf: (Bytes, seq<SqlVal>) -> bool) {
    var vals := ArgValues(x.args, sigma);
    if Builtin(x.fn).Some? then |vals| == 2 && Compare(Builtin(x.fn).value, vals[0], vals[1]) else udf(x.fn, vals)
  }

  function PatternsOf(body: seq<Simple>): seq<Pattern> {
    if body == [] then []
    else PatternsOf(body[..|body| - 1]) + if body[|body| - 1].SPattern? then [body[|body| - 1].p] else []
  }

  function ExprsOf(body: seq<Simple>): seq<Expr> {
    if body == [] then []
    else ExprsOf(body[..|body| - 1]) + if body[|body| - 1].SExpr? then [body[|body| - 1].x] else []
  }

  function SimplesOf(where: seq<Clause>): seq<Simple> {
    if where == [] then []
    else SimplesOf(where[..|where| - 1]) + if where[|where| - 1].CSimple? then [where[|where| - 1].s] else []
  }

  function NotsOf(where: seq<Clause>): seq<seq<Simple>> {
    if where == [] then []
    else NotsOf(where[..|where| - 1]) + if where[|where| - 1].CNot? then [where[|where| - 1].body] else []
  }

  function VarsOf(ps: seq<Pattern>): set<Var> {
    set p, o | p in ps && o in Occurs(p) :: o.0
  }

  ghost predicate BodyHolds(ps: seq<Pattern>, xs: seq<Expr>, s: Schema, sigma: Assignment, rel: set<Row>,
                            udf: (Bytes, seq<SqlVal>) -> bool) {
    && (forall p :: p in ps ==> PatternHolds(p, s, sigma, rel))
    && (forall x :: x in xs ==> ExprHolds(x, sigma, udf))
  }

  predicate Agree(sigma: Assignment, tau: Assignment) {
    forall x :: x in sigma && x in tau ==> sigma[x] == tau[x]
  }

  /** (not ...) removes an assignment when its body can be satisfied along with it. */
  ghost predicate NotHolds(body: seq<Simple>, s: Schema, sigma: Assignment, rel: set<Row>,
                           udf: (Bytes, seq<SqlVal>) -> bool) {
    !exists tau: Assignment ::
      tau.Keys == VarsOf(PatternsOf(body)) && Agree(sigma, tau)
        && BodyHolds(PatternsOf(body), ExprsOf(body), s, tau, rel, udf)
  }

  /** An assignment of exactly the variables of the patterns satisfies every clause. */
  ghost predicate Satisfies(q: Query, s: Schema, sigma: Assignment, rel: set<Row>, udf: (Bytes, seq<SqlVal>) -> bool) {
    var body := SimplesOf(q.where);
    && sigma.Keys == VarsOf(PatternsOf(body))
    && BodyHolds(PatternsOf(body), ExprsOf(body), s, sigma, rel, udf)
    && forall n :: n in NotsOf(q.where) ==> NotHolds(n, s, sigma, rel, udf)
  }

  predicate Projects(find: seq<Var>, sigma: Assignment, row: seq<DVal>) {
    |row| == |find| && forall i :: 0 <= i < |find| ==> find[i] in sigma && row[i] == sigma[find[i]]
  }

  /** The answers of a query over a set of datoms. */
  ghost predicate Answers(q: Query, s: Schema, rel: set<Row>, udf: (Bytes, seq<SqlVal>) -> bool, row: seq<DVal>) {
    exists sigma :: Satisfies(q, s, sigma, rel, udf) && Projects(q.find, sigma, row)
  }

  // ---------------------------------------------------------------------
  // Occurrences
  // ---------------------------------------------------------------------

  lemma {:induction false} OccursList(p: Pattern, x: Var, col: Column)
    ensures (x, col) in Occurs(p) <==> OccursAt(p, x, col)
  {
    var o := (x, col);
    assert forall el, c :: o in VarAt(el, c) <==> el == EVar(x) && c == col;
  }

  lemma {:induction false} VarsOfIff(ps: seq<Pattern>, x: Var)
    ensures x in VarsOf(ps) <==> exists i, col :: 0 <= i < |ps| && OccursAt(ps[i], x, col)
  {
    if x in VarsOf(ps) {
      var p, o :| p in ps && o in Occurs(p) && o.0 == x;
      OccursList(p, x, o.1);
      var i :| 0 <= i < |ps| && ps[i] == p;
      assert OccursAt(ps[i], x, o.1);
    }
    if i, col :| 0 <= i < |ps| && OccursAt(ps[i], x, col) {
      OccursList(ps[i], x, col);
      assert ps[i] in ps && (x, col) in Occurs(ps[i]);
    }
  }

  // ---------------------------------------------------------------------
  // Clause by clause
  // ---------------------------------------------------------------------

  lemma {:induction false} SimplesSnoc(where: seq<Clause>, c: Clause)
    ensures SimplesOf(where + [c]) == if c.CSimple? then SimplesOf(where) + [c.s] else SimplesOf(where)
    ensures NotsOf(where + [c]) == if c.CNot? then NotsOf(where) + [c.body] else NotsOf(where)
  {
    assert (where + [c])[..|where|] == where;
  }

  lemma {:induction false} PartsSnoc(body: seq<Simple>, c: Simple)
    ensures PatternsOf(body + [c]) == if c.SPattern? then PatternsOf(body) + [c.p] else PatternsOf(body)
    ensures ExprsOf(body + [c]) == if c.SExpr? then ExprsOf(body) + [c.x] else ExprsOf(body)
  {
    assert (body + [c])[..|body|] == body;
  }

  lemma {:induction false} PatternsPrefix(body: seq<Simple>, n: nat)
    requires n <= |body|
    ensures PatternsOf(body[..n]) <= PatternsOf(body)
    decreases |body|
  {
    if n < |body| {
      PatternsPrefix(body[..|body| - 1], n);
      assert body[..|body| - 1][..n] == body[..n];
    } else {
      assert body[..n] == body;
    }
  }

  lemma {:induction false} PatternIsIn(where: seq<Clause>, i: nat)
    requires i < |where| && where[i].CSimple? && where[i].s.SPattern?
    ensures where[i].s.p in PatternsOf(SimplesOf(where))
    decreases |where|
  {
    var pre, c := where[..|where| - 1], where[|where| - 1];
    assert where == pre + [c];
    SimplesSnoc(pre, c);
    if c.CSimple? {
      PartsSnoc(SimplesOf(pre), c.s);
    }
    hide PatternsOf, SimplesOf;
    if i < |pre| {
      PatternIsIn(pre, i);
    }
  }
}
