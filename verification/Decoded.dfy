/** What cells, parameters and comparisons come to for the values that users store and ask
    for: equations on integers, reals and byte strings. */
module Decoded {
  import opened Prelude
  import opened Values
  import opened Store
  import opened Sql
  import opened Datalog
  import opened Transact
  import opened Reals

  // ---------------------------------------------------------------------
  // Columns and parameters
  // ---------------------------------------------------------------------

  /** The typed columns that transact writes beside the BLOB of a value: one of the three
      holds the value itself, the others nothing; bytes have no such column. */
  lemma {:induction false} ColumnsWritten(c: Context, attr: Attribute, f: Fact, v: Value, added: bool)
    requires EncodeValue(v, attr.valueType) == Ok(f.v)
    ensures var cells := RowFor(c, attr, f, v, added).cells;
            match v
            case VInt(n) => cells.vInt == SInt(n) && cells.vText == SNull && cells.vFloat == SNull
            case VBool(b) => cells.vInt == SInt(if b then 1 else 0) && cells.vText == SNull && cells.vFloat == SNull
            case VInst(ms) => cells.vInt == SInt(ms) && cells.vText == SNull && cells.vFloat == SNull
            case VString(s) => cells.vText == SText(s) && cells.vInt == SNull && cells.vFloat == SNull
            case VFloat(x) =>
              && cells.vInt == SNull && cells.vText == SNull
              && (Finite(x) ==>
                    cells.vFloat.SReal? && Finite(cells.vFloat.bits) && RealOf(cells.vFloat.bits) == RealOf(x))
              && (IsInfinite(x) ==> cells.vFloat == SReal(x))
              && (IsNaN(x) ==> cells.vFloat == SNull)
            case VBytes(_) => cells.vInt == SNull && cells.vText == SNull && cells.vFloat == SNull
            case VNil => true
  {
    if v.VFloat? {
      RealCellIs(v.bits);
    }
  }

  lemma {:induction false} RealCellIs(x: u64)
    ensures Finite(x) ==> RealCell(x).SReal? && Finite(RealCell(x).bits) && RealOf(RealCell(x).bits) == RealOf(x)
    ensures IsInfinite(x) ==> RealCell(x) == SReal(x)
    ensures IsNaN(x) ==> RealCell(x) == SNull
  {
    hide Exp2, RealOf;
    FiniteIs(x);
    FiniteIs(0);
    Fields(x);
    Fields(0);
    if IsZero(x) {
      FloatsCompare(x, 0);
      NumOrder(x, 0);
    }
  }

  /** The same columns beside any stored BLOB, told by its decoding. */
  lemma {:induction false} ColumnsRead(b: Bytes, t: ValueType, v: Value)
    requires DecodeValue(b, t) == Ok(v)
    ensures var cells := TypedCellsOf(b, t);
            match v
            case VInt(n) => cells.vInt == SInt(n)
            case VBool(x) => cells.vInt == SInt(if x then 1 else 0)
            case VInst(ms) => cells.vInt == SInt(ms)
            case VString(s) => cells.vText == SText(s)
            case VFloat(x) => Finite(x)
              ==> cells.vFloat.SReal? && Finite(cells.vFloat.bits) && RealOf(cells.vFloat.bits) == RealOf(x)
            case _ => true
  {
    if v.VFloat? {
      RealCellIs(v.bits);
    }
  }

  /** Where each type is read: the first column for integers, references, booleans and
      instants, the second for strings, the third for floats, the BLOB for bytes. */
  lemma {:induction false} ColumnRead(t: ValueType)
    ensures t == TInt || t == TRef || t == TBool || t == TInst ==> TypedColumnOf(t) == Some(VInt_)
    ensures t == TString ==> TypedColumnOf(t) == Some(VText_)
    ensures t == TFloat ==> TypedColumnOf(t) == Some(VFloat_)
    ensures t == TBytes ==> TypedColumnOf(t) == None
  {
  }

  /** A constant of a query is bound as the value itself; instants and nil as NULL. */
  lemma {:induction false} ParamIs(v: Value)
    ensures match v
            case VInt(n) => Param(v) == SInt(n)
            case VBool(b) => Param(v) == SInt(if b then 1 else 0)
            case VString(s) => Param(v) == SText(s)
            case VBytes(b) => Param(v) == SBlob(b)
            case VFloat(x) => Finite(x)
              ==> Param(v).SReal? && Finite(Param(v).bits) && RealOf(Param(v).bits) == RealOf(x)
            case VInst(_) => Param(v) == SNull
            case VNil => Param(v) == SNull
  {
    if v.VFloat? {
      RealCellIs(v.bits);
    }
  }

  // ---------------------------------------------------------------------
  // The six comparisons
  // ---------------------------------------------------------------------

  /** A name as the bytes of its characters. */
  function Name(s: string): Bytes
    requires forall k :: 0 <= k < |s| ==> s[k] as int < 256
  {
    seq(|s|, k requires 0 <= k < |s| => s[k] as int as byte)
  }

  predicate Operator(op: string) {
    op == "<" || op == ">" || op == "<=" || op == ">=" || op == "=" || op == "!="
  }

  /** What an operator says of two things of which the first may be less than or equal to
      the second. */
  predicate Relates(op: string, less: bool, equal: bool)
    requires Operator(op)
  {
    if op == "<" then less
    else if op == "<=" then less || equal
    else if op == ">" then !less && !equal
    else if op == ">=" then !less
    else if op == "=" then equal
    else !equal
  }

  lemma {:induction false} OperatorNames()
    ensures Builtin(Name("<")) == Some(Lt) && Builtin(Name(">")) == Some(Gt)
    ensures Builtin(Name("<=")) == Some(Le) && Builtin(Name(">=")) == Some(Ge)
    ensures Builtin(Name("=")) == Some(Eq) && Builtin(Name("!=")) == Some(Ne)
  {
    assert Name("<") == [60] && Name(">") == [62] && Name("=") == [61];
    assert Name("<=") == [60, 61] && Name(">=") == [62, 61] && Name("!=") == [33, 61];
  }

  /** Two cells of which one is less exactly when the other is neither less nor equal. */
  predicate Ordered(l: SqlVal, r: SqlVal) {
    && l != SNull && r != SNull && !(SqlLess(l, r) && SqlEq(l, r))
    && (SqlLess(r, l) <==> !SqlLess(l, r) && !SqlEq(l, r))
  }

  lemma {:induction false} ComparisonHolds(op: string, a: Elem, b: Elem, sigma: Assignment,
                                           udf: (Bytes, seq<SqlVal>) -> bool)
    requires Operator(op)
    ensures var x, l, r := Expr(Name(op), [a, b]), ArgValue(a, sigma), ArgValue(b, sigma);
            && (Ordered(l, r) ==> (ExprHolds(x, sigma, udf) <==> Relates(op, SqlLess(l, r), SqlEq(l, r))))
            && (l == SNull || r == SNull ==> !ExprHolds(x, sigma, udf))
  {
    OperatorNames();
    hide Builtin, SqlLess, SqlEq, ArgValue, Name;
    var x, l, r := Expr(Name(op), [a, b]), ArgValue(a, sigma), ArgValue(b, sigma);
    var vals := ArgValues(x.args, sigma);
    assert vals == [l, r];
    assert Builtin(x.fn).Some?;
    assert ExprHolds(x, sigma, udf) <==> Compare(Builtin(x.fn).value, l, r);
  }

  /** A comparison is never true of NULL, so never of a variable without a value. */
  lemma {:induction false} NullComparison(op: string, x: Var, c: Value, sigma: Assignment,
                                          udf: (Bytes, seq<SqlVal>) -> bool)
    requires Operator(op) && (x in sigma ==> sigma[x] == Plain(SNull))
    ensures !ExprHolds(Expr(Name(op), [EVar(x), EConst(c)]), sigma, udf)
    ensures !ExprHolds(Expr(Name(op), [EConst(c), EVar(x)]), sigma, udf)
  {
    ComparisonHolds(op, EVar(x), EConst(c), sigma, udf);
    ComparisonHolds(op, EConst(c), EVar(x), sigma, udf);
  }

  /** A constant, or a variable whose value is an integer. */
  predicate IsInt(el: Elem, sigma: Assignment, n: int) {
    || (el.EConst? && el.c.VInt? && el.c.n == n)
    || (el.EVar? && el.x in sigma && sigma[el.x] == Plain(SInt(n)))
  }

  lemma {:induction false} IntComparison(op: string, a: Elem, b: Elem, n: int, m: int, sigma: Assignment,
                                         udf: (Bytes, seq<SqlVal>) -> bool)
    requires Operator(op) && IsInt(a, sigma, n) && IsInt(b, sigma, m)
    ensures ExprHolds(Expr(Name(op), [a, b]), sigma, udf) <==> Relates(op, n < m, n == m)
  {
    ComparisonHolds(op, a, b, sigma, udf);
    hide ExprHolds;
  }

  /** Text compares by bytes. */
  lemma {:induction false} TextComparison(op: string, x: Var, a: Bytes, b: Bytes, sigma: Assignment,
                                          udf: (Bytes, seq<SqlVal>) -> bool)
    requires Operator(op) && x in sigma && sigma[x] == Plain(SText(a))
    ensures ExprHolds(Expr(Name(op), [EVar(x), EConst(VString(b))]), sigma, udf)
            <==> Relates(op, exists k: nat :: BeforeAt(a, b, k), a == b)
  {
    ComparisonHolds(op, EVar(x), EConst(VString(b)), sigma, udf);
    LexLessIs(a, b);
    LexTotal(a, b);
    hide ExprHolds, LexLess;
  }

  lemma {:induction false} LexTotal(a: Bytes, b: Bytes)
    ensures LexLess(b, a) <==> !LexLess(a, b) && a != b
  {
    if a != [] && b != [] && a[0] == b[0] {
      LexTotal(a[1..], b[1..]);
      assert a == [a[0]] + a[1..] && b == [b[0]] + b[1..];
    }
  }

  /** Finite floats compare as the numbers they stand for ... */
  lemma {:induction false} FloatComparison(op: string, x: Var, a: u64, b: u64, sigma: Assignment,
                                           udf: (Bytes, seq<SqlVal>) -> bool)
    requires Operator(op) && Finite(a) && Finite(b) && x in sigma && sigma[x] == Plain(SReal(a))
    ensures ExprHolds(Expr(Name(op), [EVar(x), EConst(VFloat(b))]), sigma, udf)
            <==> Relates(op, RealOf(a) < RealOf(b), RealOf(a) == RealOf(b))
  {
    hide Exp2, RealOf, Finite, Exponent, Fraction, RealCell, NumLess, NumEqual;
    var c := RealCell(b);
    RealCellIs(b);
    ComparisonHolds(op, EVar(x), EConst(VFloat(b)), sigma, udf);
    FloatsCompare(a, c.bits);
    FloatsCompare(c.bits, a);
    hide ExprHolds;
  }

  /** ... and with integers too. */
  lemma {:induction false} MixedComparison(op: string, x: Var, a: u64, m: i64, sigma: Assignment,
                                           udf: (Bytes, seq<SqlVal>) -> bool)
    requires Operator(op) && Finite(a) && x in sigma && sigma[x] == Plain(SReal(a))
    ensures ExprHolds(Expr(Name(op), [EVar(x), EConst(VInt(m))]), sigma, udf)
            <==> Relates(op, RealOf(a) < m as real, RealOf(a) == m as real)
  {
    FiniteIs(a);
    hide Exp2, RealOf, Finite, Exponent, Fraction, IntMinusReal, IsNaN, IsInfinite;
    ComparisonHolds(op, EVar(x), EConst(VInt(m)), sigma, udf);
    IntComparesReal(m, a);
    hide ExprHolds;
  }

  // ---------------------------------------------------------------------
  // Patterns, position by position
  // ---------------------------------------------------------------------

  /** A variable has the value that stands there, a constant equals it, and the rest is
      free. */
  predicate Stands(el: Elem, sigma: Assignment, d: DVal) {
    && (el.EVar? ==> el.x in sigma && sigma[el.x] == d)
    && (el.EConst? && el.c != VNil ==> SqlEq(Cmp(d), Param(el.c)))
  }

  /** An attribute is named by a string that the schema knows. */
  predicate AttributeStands(el: Elem, s: Schema, sigma: Assignment, a: int) {
    && (el.EVar? ==> el.x in sigma && sigma[el.x] == Plain(SInt(a)))
    && (el.EConst? && el.c != VNil ==> el.c.VString? && el.c.s in s.byIdent && a == s.byIdent[el.c.s].id)
  }

  /** A row is an instance of a pattern exactly when entity, attribute, value and
      transaction each stand where they are asked for. */
  lemma {:induction false} MatchesByPosition(p: Pattern, s: Schema, sigma: Assignment, r: Row)
    ensures Matches(p, s, sigma, r) <==>
            && Stands(p.e, sigma, Plain(SInt(r.fact.e))) && AttributeStands(p.a, s, sigma, r.fact.a)
            && Stands(p.v, sigma, CellAt(p, s, ColV, r)) && Stands(p.tx, sigma, Plain(SInt(r.tx)))
  {
    hide SqlEq, Param, Stored;
    assert p.e.EVar? ==> OccursAt(p, p.e.x, ColE);
    assert p.a.EVar? ==> OccursAt(p, p.a.x, ColA);
    assert p.v.EVar? ==> OccursAt(p, p.v.x, ColV);
    assert p.tx.EVar? ==> OccursAt(p, p.tx.x, ColTx);
  }

  /** Where no attribute is named, the value position is the BLOB itself, which equals
      constants of bytes only. */
  lemma {:induction false} UntypedPosition(p: Pattern, s: Schema, r: Row, c: Value)
    requires !p.a.EConst?
    ensures CellAt(p, s, ColV, r) == Encoded(r.vtype, r.fact.v)
    ensures c != VNil ==> (SqlEq(Cmp(CellAt(p, s, ColV, r)), Param(c)) <==> c == VBytes(r.fact.v))
  {
    hide RealCell;
    ParamIs(c);
    if c.VFloat? {
      NoBlob(c.bits);
    }
  }

  lemma {:induction false} NoBlob(x: u64)
    ensures !RealCell(x).SBlob?
  {
  }
}
