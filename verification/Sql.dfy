/** The SQL that translate.go emits, as an abstract syntax tree with positional
    placeholders, and what SQLite makes of it. */
module Sql {
  import opened Prelude
  import opened Values
  import opened Store

  // ---------------------------------------------------------------------
  // Comparing cells
  // ---------------------------------------------------------------------

  datatype Op = Lt | Gt | Le | Ge | Eq | Ne

  // A finite float as significand * 2^(exponent - 1075).
  function Significand(x: u64): nat {
    if Exponent(x) == 0 then Fraction(x) else TWO52 + Fraction(x)
  }

  function SignedSignificand(x: u64): int {
    var m: int := Significand(x);
    if Negative(x) then -m else m
  }

  function Binade(x: u64): nat {
    if Exponent(x) == 0 then 1 else Exponent(x)
  }

  /** The sign of n - x, for an integer n and a finite float x, exactly. */
  function IntMinusReal(n: int, x: u64): int {
    if Binade(x) <= 1075 then n * Pow2(1075 - Binade(x)) - SignedSignificand(x)
    else n - SignedSignificand(x) * Pow2(Binade(x) - 1075)
  }

  /** Equality of two cells. NULL equals nothing; integers and reals compare by value. */
  predicate SqlEq(x: SqlVal, y: SqlVal) {
    match (x, y)
    case (SInt(n), SInt(m)) => n == m
    case (SReal(a), SReal(b)) => NumEqual(a, b)
    case (SInt(n), SReal(b)) => !IsInfinite(b) && IntMinusReal(n, b) == 0
    case (SReal(a), SInt(m)) => !IsInfinite(a) && IntMinusReal(m, a) == 0
    case (SText(s), SText(t)) => s == t
    case (SBlob(s), SBlob(t)) => s == t
    case _ => false
  }

  function ClassRank(x: SqlVal): nat {
    match x
    case SNull => 0
    case SInt(_) | SReal(_) => 1
    case SText(_) => 2
    case SBlob(_) => 3
  }

  /** The order of two non-NULL cells: numbers, then text, then blobs. */
  predicate SqlLess(x: SqlVal, y: SqlVal) {
    match (x, y)
    case (SInt(n), SInt(m)) => n < m
    case (SReal(a), SReal(b)) => NumLess(a, b)
    case (SInt(n), SReal(b)) => if IsInfinite(b) then !Negative(b) else IntMinusReal(n, b) < 0
    case (SReal(a), SInt(m)) => if IsInfinite(a) then Negative(a) else IntMinusReal(m, a) > 0
    case (SText(s), SText(t)) => LexLess(s, t)
    case (SBlob(s), SBlob(t)) => LexLess(s, t)
    case _ => ClassRank(x) < ClassRank(y)
  }

  /** A comparison in a WHERE clause: not true when either side is NULL. */
  predicate Compare(op: Op, x: SqlVal, y: SqlVal) {
    x != SNull && y != SNull &&
    match op
    case Eq => SqlEq(x, y)
    case Ne => !SqlEq(x, y)
    case Lt => SqlLess(x, y)
    case Gt => SqlLess(y, x)
    case Le => SqlLess(x, y) || SqlEq(x, y)
    case Ge => SqlLess(y, x) || SqlEq(x, y)
  }

  /** How executeQuery binds a Go value. Instants are not accepted as parameters. */
  function Param(v: Value): SqlVal {
    match v
    case VInt(n) => SInt(n)
    case VFloat(x) => RealCell(x)
    case VString(s) => SText(s)
    case VBool(b) => SInt(if b then 1 else 0)
    case VBytes(b) => SBlob(b)
    case VInst(_) | VNil => SNull
  }

  // ---------------------------------------------------------------------
  // Tables and columns
  // ---------------------------------------------------------------------

  datatype Table = CurrentDatoms | DatomsLog

  datatype Column =
    | ColE | ColA | ColV | ColVType | ColVInt | ColVText | ColVFloat | ColTx | ColAdded | ColValidFrom | ColValidTo

  function TypeCode(t: ValueType): int {
    match t
    case TInt => 1
    case TString => 2
    case TFloat => 3
    case TBool => 4
    case TRef => 5
    case TBytes => 6
    case TInst => 7
  }

  function ColumnOf(c: TypedColumn): Column {
    match c
    case VInt_ => ColVInt
    case VText_ => ColVText
    case VFloat_ => ColVFloat
  }

  function ColumnValue(r: Row, c: Column): SqlVal {
    match c
    case ColE => SInt(r.fact.e)
    case ColA => SInt(r.fact.a)
    case ColV => SBlob(r.fact.v)
    case ColVType => SInt(TypeCode(r.vtype))
    case ColVInt => r.cells.vInt
    case ColVText => r.cells.vText
    case ColVFloat => r.cells.vFloat
    case ColTx => SInt(r.tx)
    case ColAdded => SInt(if r.added then 1 else 0)
    case ColValidFrom => SInt(r.validFrom)
    case ColValidTo => SNull
  }

  /** The rows of the two tables, and the boolean functions registered by the user. */
  datatype Db = Db(current: set<Row>, datoms: set<Row>, udf: (Bytes, seq<SqlVal>) -> bool) {
    function Rows(t: Table): set<Row> {
      if t == CurrentDatoms then current else datoms
    }
  }

  // ---------------------------------------------------------------------
  // Queries
  // ---------------------------------------------------------------------

  // d0, d1, ... and the aliases d0_r, d1_r, ... of the raw AsOf filters.
  datatype Alias = D(i: int) | DR(i: int)

  /** OParam is the placeholder "?"; OCoalesce is COALESCE(column, literal). */
  datatype Operand =
    | OCol(alias: Alias, col: Column)
    | OParam
    | OLit(v: SqlVal)
    | OCoalesce(alias: Alias, col: Column, v: SqlVal)

  datatype Atom = ACmp(op: Op, l: Operand, r: Operand) | AUdf(fn: Bytes, args: seq<Operand>)

  datatype From = From(table: Table, alias: Alias)

  datatype Frag = FAtom(a: Atom) | FNotExists(from: seq<From>, where: seq<Atom>)

  datatype SqlQuery = SqlQuery(select: seq<Operand>, from: seq<From>, where: seq<Frag>, params: seq<Value>)

  // ---------------------------------------------------------------------
  // Placeholders
  // ---------------------------------------------------------------------

  function Drop(ps: seq<Value>, n: nat): seq<Value> {
    if n <= |ps| then ps[n..] else []
  }

  function HolesIn(o: Operand): nat { if o.OParam? then 1 else 0 }

  function HolesInAll(os: seq<Operand>): nat {
    if os == [] then 0 else HolesIn(os[0]) + HolesInAll(os[1..])
  }

  function AtomHoles(a: Atom): nat {
    match a
    case ACmp(_, l, r) => HolesIn(l) + HolesIn(r)
    case AUdf(_, args) => HolesInAll(args)
  }

  function AtomsHoles(atoms: seq<Atom>): nat {
    if atoms == [] then 0 else AtomHoles(atoms[0]) + AtomsHoles(atoms[1..])
  }

  function FragHoles(f: Frag): nat {
    match f
    case FAtom(a) => AtomHoles(a)
    case FNotExists(_, where) => AtomsHoles(where)
  }

  function FragsHoles(fs: seq<Frag>): nat {
    if fs == [] then 0 else FragHoles(fs[0]) + FragsHoles(fs[1..])
  }

  /** Placeholders take the parameters one by one, in the order of the text. */
  function BindOperand(o: Operand, ps: seq<Value>): Operand {
    if o.OParam? then OLit(if ps == [] then SNull else Param(ps[0])) else o
  }

  function BindOperands(os: seq<Operand>, ps: seq<Value>): (r: seq<Operand>)
    ensures |r| == |os|
  {
    if os == [] then [] else [BindOperand(os[0], ps)] + BindOperands(os[1..], Drop(ps, HolesIn(os[0])))
  }

  function BindAtom(a: Atom, ps: seq<Value>): Atom {
    match a
    case ACmp(op, l, r) => ACmp(op, BindOperand(l, ps), BindOperand(r, Drop(ps, HolesIn(l))))
    case AUdf(fn, args) => AUdf(fn, BindOperands(args, ps))
  }

  function BindAtoms(atoms: seq<Atom>, ps: seq<Value>): seq<Atom> {
    if atoms == [] then [] else [BindAtom(atoms[0], ps)] + BindAtoms(atoms[1..], Drop(ps, AtomHoles(atoms[0])))
  }

  function BindFrag(f: Frag, ps: seq<Value>): Frag {
    match f
    case FAtom(a) => FAtom(BindAtom(a, ps))
    case FNotExists(from, where) => FNotExists(from, BindAtoms(where, ps))
  }

  function BindFrags(fs: seq<Frag>, ps: seq<Value>): seq<Frag> {
    if fs == [] then [] else [BindFrag(fs[0], ps)] + BindFrags(fs[1..], Drop(ps, FragHoles(fs[0])))
  }

  // ---------------------------------------------------------------------
  // Meaning
  // ---------------------------------------------------------------------

  type Env = map<Alias, Row>

  function OperandValue(o: Operand, env: Env): SqlVal {
    match o
    case OCol(al, c) => if al in env then ColumnValue(env[al], c) else SNull
    case OCoalesce(al, c, v) => if al in env && ColumnValue(env[al], c) != SNull then ColumnValue(env[al], c) else v
    case OLit(v) => v
    case OParam => SNull
  }

  function OperandValues(os: seq<Operand>, env: Env): seq<SqlVal> {
    seq(|os|, i requires 0 <= i < |os| => OperandValue(os[i], env))
  }

  predicate AtomHolds(a: Atom, env: Env, db: Db) {
    match a
    case ACmp(op, l, r) => Compare(op, OperandValue(l, env), OperandValue(r, env))
    case AUdf(fn, args) => db.udf(fn, OperandValues(args, env))
  }

  ghost predicate AtomsHold(atoms: seq<Atom>, env: Env, db: Db) {
    forall a :: a in atoms ==> AtomHolds(a, env, db)
  }

  /** One row for every table of a FROM clause. */
  ghost predicate Ranges(from: seq<From>, env: Env, db: Db) {
    && (forall al :: al in env ==> exists i :: 0 <= i < |from| && from[i].alias == al)
    && (forall i :: 0 <= i < |from| ==> from[i].alias in env && env[from[i].alias] in db.Rows(from[i].table))
  }

  /** Inner aliases hide outer ones of the same name. */
  ghost predicate FragHolds(f: Frag, env: Env, db: Db) {
    match f
    case FAtom(a) => AtomHolds(a, env, db)
    case FNotExists(from, where) => !exists inner: Env :: Ranges(from, inner, db) && AtomsHold(where, env + inner, db)
  }

  ghost predicate FragsHold(fs: seq<Frag>, env: Env, db: Db) {
    forall f :: f in fs ==> FragHolds(f, env, db)
  }

  /** The rows a SELECT DISTINCT returns, with its parameters bound by position. */
  ghost predicate Returns(q: SqlQuery, db: Db, row: seq<SqlVal>) {
    exists env :: Ranges(q.from, env, db) && FragsHold(BindFrags(q.where, q.params), env, db)
      && row == OperandValues(q.select, env)
  }

  // ---------------------------------------------------------------------
  // Binding fragment by fragment
  // ---------------------------------------------------------------------

  lemma {:induction false} DropWithin(p: seq<Value>, q: seq<Value>, n: nat)
    requires n <= |p|
    ensures Drop(p + q, n) == Drop(p, n) + q
    ensures n > 0 ==> p != [] && (p + q)[0] == p[0]
  {
  }

  lemma {:induction false} DropSize(p: seq<Value>, n: nat)
    requires n <= |p|
    ensures |Drop(p, n)| == |p| - n
  {
  }

  lemma {:induction false} BindOperandsPrefix(os: seq<Operand>, p: seq<Value>, q: seq<Value>)
    requires HolesInAll(os) <= |p|
    ensures BindOperands(os, p + q) == BindOperands(os, p)
  {
    if os != [] {
      DropWithin(p, q, HolesIn(os[0]));
      BindOperandsPrefix(os[1..], Drop(p, HolesIn(os[0])), q);
    }
  }

  lemma {:induction false} BindAtomPrefix(a: Atom, p: seq<Value>, q: seq<Value>)
    requires AtomHoles(a) <= |p|
    ensures BindAtom(a, p + q) == BindAtom(a, p)
  {
    match a
    case ACmp(_, l, r) =>
      DropWithin(p, q, HolesIn(l));
      DropWithin(Drop(p, HolesIn(l)), q, HolesIn(r));
    case AUdf(_, args) => BindOperandsPrefix(args, p, q);
  }

  lemma {:induction false} BindAtomsConcat(as_: seq<Atom>, bs: seq<Atom>, p: seq<Value>, q: seq<Value>)
    requires AtomsHoles(as_) == |p|
    ensures BindAtoms(as_ + bs, p + q) == BindAtoms(as_, p) + BindAtoms(bs, q)
    ensures AtomsHoles(as_ + bs) == |p| + AtomsHoles(bs)
  {
    hide AtomHoles, BindAtom, Drop;
    if as_ == [] {
      assert as_ + bs == bs && p + q == q;
    } else {
      var n := AtomHoles(as_[0]);
      assert (as_ + bs)[1..] == as_[1..] + bs;
      DropWithin(p, q, n);
      BindAtomPrefix(as_[0], p, q);
      assert |Drop(p, n)| == |p| - n by { DropSize(p, n); }
      BindAtomsConcat(as_[1..], bs, Drop(p, n), q);
      assert BindAtoms(as_ + bs, p + q) == [BindAtom(as_[0], p)] + BindAtoms(as_[1..] + bs, Drop(p, n) + q);
    }
  }

  lemma {:induction false} BindAtomsPrefix(atoms: seq<Atom>, p: seq<Value>, q: seq<Value>)
    requires AtomsHoles(atoms) <= |p|
    ensures BindAtoms(atoms, p + q) == BindAtoms(atoms, p)
  {
    if atoms != [] {
      var n := AtomHoles(atoms[0]);
      DropWithin(p, q, n);
      BindAtomPrefix(atoms[0], p, q);
      BindAtomsPrefix(atoms[1..], Drop(p, n), q);
    }
  }

  lemma {:induction false} BindFragPrefix(f: Frag, p: seq<Value>, q: seq<Value>)
    requires FragHoles(f) <= |p|
    ensures BindFrag(f, p + q) == BindFrag(f, p)
  {
    match f
    case FAtom(a) => BindAtomPrefix(a, p, q);
    case FNotExists(_, where) => BindAtomsPrefix(where, p, q);
  }

  /** Each run of fragments takes exactly its own parameters. */
  lemma {:induction false} BindFragsConcat(fs: seq<Frag>, gs: seq<Frag>, p: seq<Value>, q: seq<Value>)
    requires FragsHoles(fs) == |p|
    ensures BindFrags(fs + gs, p + q) == BindFrags(fs, p) + BindFrags(gs, q)
    ensures FragsHoles(fs + gs) == |p| + FragsHoles(gs)
  {
    hide FragHoles, BindFrag, Drop;
    if fs == [] {
      assert fs + gs == gs && p + q == q;
    } else {
      var n := FragHoles(fs[0]);
      assert (fs + gs)[1..] == fs[1..] + gs;
      DropWithin(p, q, n);
      BindFragPrefix(fs[0], p, q);
      DropSize(p, n);
      BindFragsConcat(fs[1..], gs, Drop(p, n), q);
      assert BindFrags(fs + gs, p + q) == [BindFrag(fs[0], p)] + BindFrags(fs[1..] + gs, Drop(p, n) + q);
    }
  }
}
