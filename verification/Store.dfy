/** The tables of schema.go, the attribute registry, and what it means for
    current_datoms to be the materialized view of the datoms log. */
module Store {
  import opened Prelude
  import opened Values

  // ---------------------------------------------------------------------
  // SQL cells
  // ---------------------------------------------------------------------

  /** An SQLite value. A REAL cell never holds NaN, which SQLite stores as NULL, nor
      negative zero, which it stores as zero. */
  datatype SqlVal = SNull | SInt(n: int) | SReal(bits: u64) | SText(s: Bytes) | SBlob(b: Bytes)

  function RealCell(x: u64): SqlVal {
    if IsNaN(x) then SNull else if IsZero(x) then SReal(0) else SReal(x)
  }

  datatype TypedColumn = VInt_ | VText_ | VFloat_

  /** query.TypedColumn: the specialised column of a value type, if it has one. */
  function TypedColumnOf(t: ValueType): Option<TypedColumn> {
    match t
    case TInt | TRef | TBool | TInst => Some(VInt_)
    case TString => Some(VText_)
    case TFloat => Some(VFloat_)
    case TBytes => None
  }

  datatype TypedCells = TypedCells(vInt: SqlVal, vText: SqlVal, vFloat: SqlVal) {
    function Get(c: TypedColumn): SqlVal {
      match c
      case VInt_ => vInt
      case VText_ => vText
      case VFloat_ => vFloat
    }
  }

  /** bindTypedColumns: at most one of the three columns is set. */
  function BindTypedColumns(v: Value, t: ValueType): TypedCells {
    var i := match t
             case TInt | TRef => if v.VInt? then SInt(v.n) else SNull
             case TBool => if v.VBool? then SInt(if v.b then 1 else 0) else SNull
             case TInst => if v.VInst? then SInt(v.ms) else SNull
             case _ => SNull;
    TypedCells(i,
               if t == TString && v.VString? then SText(v.s) else SNull,
               if t == TFloat && v.VFloat? then RealCell(v.bits) else SNull)
  }

  /** decodeValue with its error dropped, as the CardOne branch of transact does. */
  function DecodeOrNil(b: Bytes, t: ValueType): Value {
    match DecodeValue(b, t)
    case Ok(v) => v
    case Err(_) => VNil
  }

  /** What the typed columns hold beside a BLOB. */
  function TypedCellsOf(b: Bytes, t: ValueType): TypedCells {
    BindTypedColumns(DecodeOrNil(b, t), t)
  }

  // ---------------------------------------------------------------------
  // Attributes
  // ---------------------------------------------------------------------

  datatype Cardinality = CardOne | CardMany

  datatype Attribute = Attribute(id: int, ident: Bytes, valueType: ValueType, cardinality: Cardinality,
                                 indexed: bool, unique: bool, identity: bool, isComponent: bool)

  datatype Schema = Schema(byIdent: map<Bytes, Attribute>, byID: map<int, Attribute>) {
    /** The two indexes of the cache describe one set of attributes. */
    ghost predicate Valid() {
      && (forall i :: i in byIdent
            ==> byIdent[i].ident == i && byIdent[i].id in byID && byID[byIdent[i].id] == byIdent[i])
      && (forall k :: k in byID ==> byID[k].id == k && byID[k].ident in byIdent && byIdent[byID[k].ident] == byID[k])
    }

    function Put(attr: Attribute): Schema {
      Schema(byIdent[attr.ident := attr], byID[attr.id := attr])
    }

    ghost predicate Extends(old_: Schema) {
      && (forall i :: i in old_.byIdent ==> i in byIdent && byIdent[i] == old_.byIdent[i])
      && (forall k :: k in old_.byID ==> k in byID && byID[k] == old_.byID[k])
    }
  }

  // ---------------------------------------------------------------------
  // Tables
  // ---------------------------------------------------------------------

  /** The primary key of current_datoms. */
  datatype Fact = Fact(e: int, a: int, v: Bytes)

  /** A row of datoms. valid_to is always NULL. */
  datatype Row = Row(fact: Fact, vtype: ValueType, cells: TypedCells, tx: int, added: bool, validFrom: int)

  /** The other columns of a row of current_datoms. */
  datatype Cell = Cell(vtype: ValueType, cells: TypedCells, tx: int, validFrom: int)

  type Current = map<Fact, Cell>

  datatype Tables = Tables(datoms: seq<Row>, current: Current, transactions: map<int, int>)

  /** UNIQUE(e, a, v, tx, added, valid_from) on datoms. */
  predicate SameKey(r: Row, s: Row) {
    r.fact == s.fact && r.tx == s.tx && r.added == s.added && r.validFrom == s.validFrom
  }

  predicate Duplicates(log: seq<Row>, r: Row) {
    exists i :: 0 <= i < |log| && SameKey(log[i], r)
  }

  ghost predicate DistinctRows(log: seq<Row>) {
    forall i, j :: 0 <= i < j < |log| ==> !SameKey(log[i], log[j])
  }

  function CellOf(r: Row): Cell {
    Cell(r.vtype, r.cells, r.tx, r.validFrom)
  }

  // ---------------------------------------------------------------------
  // Replay
  // ---------------------------------------------------------------------

  /** The effect of one log row: an assertion inserts or replaces, a retraction removes. */
  function Apply(c: Current, r: Row): Current {
    if r.added then c[r.fact := CellOf(r)] else c - {r.fact}
  }

  /** The state that a log describes. */
  function Replay(log: seq<Row>): Current {
    if log == [] then map[] else Apply(Replay(log[..|log| - 1]), log[|log| - 1])
  }

  lemma {:induction false} ReplaySnoc(log: seq<Row>, r: Row)
    ensures Replay(log + [r]) == Apply(Replay(log), r)
  {
    assert (log + [r])[..|log|] == log;
  }

  /** The last row about a fact decides whether replay keeps it. */
  ghost predicate LastIsAssertion(log: seq<Row>, f: Fact) {
    exists i :: 0 <= i < |log| && log[i].fact == f && log[i].added
                && forall j :: i < j < |log| ==> log[j].fact != f
  }

  lemma {:induction false} ReplayKeepsLast(log: seq<Row>, f: Fact)
    ensures f in Replay(log) <==> LastIsAssertion(log, f)
  {
    if log != [] {
      var n := |log| - 1;
      var before := log[..n];
      ReplayKeepsLast(before, f);
      if log[n].fact == f {
        assert log[n].added ==> LastIsAssertion(log, f);
      } else {
        if LastIsAssertion(before, f) {
          var i :| 0 <= i < |before| && before[i].fact == f && before[i].added
                   && forall j :: i < j < |before| ==> before[j].fact != f;
          assert log[i].fact == f && forall j :: i < j < |log| ==> log[j].fact != f;
        }
        if LastIsAssertion(log, f) {
          var i :| 0 <= i < |log| && log[i].fact == f && log[i].added
                   && forall j :: i < j < |log| ==> log[j].fact != f;
          assert before[i].fact == f && forall j :: i < j < |before| ==> before[j].fact != f;
        }
      }
    }
  }

  // ---------------------------------------------------------------------
  // Invariants of the tables
  // ---------------------------------------------------------------------

  /** The typed columns beside the BLOB v are those of its decoding. */
  ghost predicate Agrees(attr: Attribute, v: Bytes, vtype: ValueType, cells: TypedCells) {
    vtype == attr.valueType && WellFormed(v, vtype) && cells == TypedCellsOf(v, vtype)
  }

  ghost predicate RowAgrees(s: Schema, r: Row) {
    r.fact.a in s.byID && Agrees(s.byID[r.fact.a], r.fact.v, r.vtype, r.cells)
  }

  ghost predicate CellAgrees(s: Schema, f: Fact, c: Cell) {
    f.a in s.byID && Agrees(s.byID[f.a], f.v, c.vtype, c.cells)
  }

  /** A CardOne attribute has at most one value per entity. */
  ghost predicate CardOneHolds(s: Schema, c: Current) {
    forall f, g :: f in c && g in c && f.e == g.e && f.a == g.a && f.a in s.byID && s.byID[f.a].cardinality == CardOne
      ==> f == g
  }

  /** An Identity attribute's value has at most one holder. */
  ghost predicate IdentityHolds(s: Schema, c: Current) {
    forall f, g :: f in c && g in c && f.a == g.a && f.v == g.v && f.a in s.byID && s.byID[f.a].identity ==> f == g
  }

  ghost predicate TablesValid(s: Schema, t: Tables) {
    && s.Valid()
    && (forall r :: r in t.datoms ==> RowAgrees(s, r) && r.tx in t.transactions)
    && (forall f :: f in t.current ==> CellAgrees(s, f, t.current[f]))
    && DistinctRows(t.datoms)
    && CardOneHolds(s, t.current)
    && IdentityHolds(s, t.current)
  }

  /** current_datoms is what replaying the log gives. */
  ghost predicate IsView(t: Tables) {
    t.current == Replay(t.datoms)
  }

  // ---------------------------------------------------------------------
  // Typed columns against BLOBs
  // ---------------------------------------------------------------------

  /** SQL equality of two cells, of the classes that typed columns hold. */
  predicate CellsEqual(x: SqlVal, y: SqlVal) {
    x != SNull && x == y
  }

  lemma {:induction false} FloatCellsExactly(x: u64, y: u64)
    ensures CellsEqual(RealCell(x), RealCell(y)) <==> !IsNaN(x) && (x == y || (IsZero(x) && IsZero(y)))
  {
    Fields(x);
    Fields(y);
    Fields(0);
  }

  /** Comparing two stored values through their typed column gives what comparing
      their BLOBs gives, except for a NaN against itself and for the two zeros. */
  lemma {:induction false} TypedEqualityExactly(t: ValueType, b: Bytes, d: Bytes)
    requires WellFormed(b, t) && WellFormed(d, t) && TypedColumnOf(t).Some?
    ensures var c := TypedColumnOf(t).value;
            var nan := t == TFloat && b == d && IsNaN(DecodeFloat(b));
            var zeros := t == TFloat && b != d && IsZero(DecodeFloat(b)) && IsZero(DecodeFloat(d));
            (CellsEqual(TypedCellsOf(b, t).Get(c), TypedCellsOf(d, t).Get(c)) <==> b == d) <==> !nan && !zeros
  {
    if t == TFloat {
      FloatRoundTripBytes(b);
      FloatRoundTripBytes(d);
      hide DecodeFloat, RealCell, IsNaN, IsZero;
      FloatCellsExactly(DecodeFloat(b), DecodeFloat(d));
    } else if t.TInt? || t.TRef? || t.TInst? {
      IntRoundTripBytes(b);
      IntRoundTripBytes(d);
      hide DecodeInt, EncodeInt;
    }
  }
}
