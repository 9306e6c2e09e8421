/** Where variables stand, what kind of value stands there, and how rows for the
    patterns of a query correspond to assignments of its variables. */
module Places {
  import opened Prelude
  import opened Values
  import opened Store
  import opened Sql
  import opened Datalog
  import opened Algebra

  // ---------------------------------------------------------------------
  // Kinds
  // ---------------------------------------------------------------------

  /** How a place is stored: KRaw is the value position of a pattern whose attribute is
      not given, which holds values of any type as BLOBs. */
  datatype Kind = KInt | KText | KReal | KBytes | KRaw

  function KindOfType(t: ValueType): Kind {
    match t
    case TInt | TRef | TBool | TInst => KInt
    case TString => KText
    case TFloat => KReal
    case TBytes => KBytes
  }

  function KindAt(p: Pattern, s: Schema, col: Column): Kind {
    if col != ColV then KInt
    else match PatType(p, s)
      case Some(t) => KindOfType(t)
      case None => KRaw
  }

  predicate HasKind(d: DVal, k: Kind) {
    match k
    case KInt => d.Plain? && d.v.SInt?
    case KText => d.Plain? && d.v.SText?
    case KReal => d.Plain? && d.v.SReal? && !IsNaN(d.v.bits) && (IsZero(d.v.bits) ==> d.v.bits == 0)
    case KBytes => d.Encoded? && d.t == TBytes
    case KRaw => d.Encoded?
  }

  /** On values of one kind, SQL equality is equality. */
  lemma {:induction false} EqualByKind(k: Kind, d: DVal, e: DVal)
    requires HasKind(d, k) && HasKind(e, k) && k != KRaw
    ensures Compare(Eq, Cmp(d), Cmp(e)) <==> d == e
  {
    if k == KReal {
      NumOrder(d.v.bits, e.v.bits);
      hide IsNaN, IsZero, NumEqual, NumLess;
    }
  }

  /** A datom as transact writes them, whose float, if it is one, is not NaN. */
  ghost predicate Clean(s: Schema, r: Row) {
    RowAgrees(s, r) && (r.vtype == TFloat ==> !IsNaN(DecodeFloat(r.fact.v)))
  }

  /** The row has the attribute that the pattern gives, if it gives one. */
  predicate OfAttr(p: Pattern, s: Schema, r: Row) {
    PatType(p, s).Some? ==> r.fact.a == s.byIdent[p.a.c.s].id
  }

  lemma {:induction false} TypedCell(r: Row, t: ValueType)
    requires WellFormed(r.fact.v, t) && (t == TFloat ==> !IsNaN(DecodeFloat(r.fact.v)))
    requires TypedColumnOf(t).Some?
    ensures HasKind(Plain(TypedCellsOf(r.fact.v, t).Get(TypedColumnOf(t).value)), KindOfType(t))
  {
    if t == TFloat {
      hide DecodeFloat, IsNaN, IsZero;
      RealCellKind(DecodeFloat(r.fact.v));
    } else {
      hide DecodeInt;
    }
  }

  lemma {:induction false} RealCellKind(x: u64)
    requires !IsNaN(x)
    ensures HasKind(Plain(RealCell(x)), KReal)
  {
    Fields(x);
    Fields(0);
    hide Exponent, Fraction;
  }

  /** A place's value has the place's kind, and is what its column holds. */
  lemma {:induction false} CellOfPlace(p: Pattern, s: Schema, col: Column, r: Row)
    requires s.Valid() && Clean(s, r) && OfAttr(p, s, r) && Position(col)
    ensures HasKind(CellAt(p, s, col, r), KindAt(p, s, col))
    ensures ColumnValue(r, ReadCol(col, PatType(p, s))) == Cmp(CellAt(p, s, col, r))
  {
    hide HasKind, TypedCellsOf, WellFormed;
    if col == ColV {
      var t := PatType(p, s);
      if t.Some? && TypedColumnOf(t.value).Some? {
        TypedCell(r, t.value);
      } else {
        EncodedKind(r, if t.Some? then KBytes else KRaw);
      }
    } else {
      IntKind(r.fact.e);
      IntKind(r.fact.a);
      IntKind(r.tx);
    }
  }

  lemma {:induction false} IntKind(n: int)
    ensures HasKind(Plain(SInt(n)), KInt)
  {
  }

  lemma {:induction false} EncodedKind(r: Row, k: Kind)
    requires k == KRaw || (k == KBytes && r.vtype == TBytes)
    ensures HasKind(Encoded(r.vtype, r.fact.v), k)
  {
  }

  // ---------------------------------------------------------------------
  // Places
  // ---------------------------------------------------------------------

  lemma {:induction false} PlaceIff(ps: seq<Pattern>, x: Var, l: Loc)
    ensures l in LocsFrom(ps, x) <==> 0 <= l.table < |ps| && OccursAt(ps[l.table], x, l.col)
  {
    if ps != [] {
      var n := |ps| - 1;
      PlaceIff(ps[..n], x, l);
      assert l in PatLocs(n, ps[n], x) <==> l.table == n && OccursAt(ps[n], x, l.col);
    }
  }

  lemma {:induction false} PlacesOfVar(ps: seq<Pattern>, x: Var)
    ensures x in VarsOf(ps) <==> LocsFrom(ps, x) != []
    ensures LocsFrom(ps, x) != []
            ==> var l := LocsFrom(ps, x)[0]; 0 <= l.table < |ps| && OccursAt(ps[l.table], x, l.col)
  {
    VarsOfIff(ps, x);
    var locs := LocsFrom(ps, x);
    if locs != [] {
      assert locs[0] in locs;
      PlaceIff(ps, x, locs[0]);
    }
    if i, col :| 0 <= i < |ps| && OccursAt(ps[i], x, col) {
      PlaceIff(ps, x, Loc(i, col));
    }
  }

  ghost predicate StandsAt(ps: seq<Pattern>, x: Var, i: int, col: Column) {
    0 <= i < |ps| && OccursAt(ps[i], x, col)
  }

  /** Every variable stands in places of one kind only; a variable in a value position
      of unknown attribute stands nowhere else. */
  ghost predicate OneKind(ps: seq<Pattern>, s: Schema) {
    forall x, i, col, i', col' :: StandsAt(ps, x, i, col) && StandsAt(ps, x, i', col') ==>
      && KindAt(ps[i], s, col) == KindAt(ps[i'], s, col')
      && (KindAt(ps[i], s, col) == KRaw ==> i == i' && col == col')
  }

  // ---------------------------------------------------------------------
  // Rows and assignments
  // ---------------------------------------------------------------------

  ghost predicate RowsMatch(ps: seq<Pattern>, s: Schema, rows: seq<Row>, rel: set<Row>) {
    |rows| == |ps| && forall i :: 0 <= i < |ps| ==> rows[i] in rel && ConstsMatch(ps[i], s, rows[i])
  }

  function CellIn(ps: seq<Pattern>, s: Schema, rows: seq<Row>, l: Loc): DVal
    requires |rows| == |ps| && 0 <= l.table < |ps|
  {
    CellAt(ps[l.table], s, l.col, rows[l.table])
  }

  /** All places of a variable hold what its first place holds. */
  ghost predicate RowsJoin(ps: seq<Pattern>, s: Schema, rows: seq<Row>)
    requires |rows| == |ps|
  {
    forall x, i, col :: StandsAt(ps, x, i, col) ==> CellIn(ps, s, rows, Loc(i, col)) == FirstCell(ps, s, rows, x)
  }

  ghost function FirstCell(ps: seq<Pattern>, s: Schema, rows: seq<Row>, x: Var): DVal
    requires |rows| == |ps|
  {
    PlacesOfVar(ps, x);
    if LocsFrom(ps, x) == [] then Plain(SNull) else CellIn(ps, s, rows, LocsFrom(ps, x)[0])
  }

  /** The assignment that rows for the patterns amount to. */
  ghost function AssignmentOf(ps: seq<Pattern>, s: Schema, rows: seq<Row>): Assignment
    requires |rows| == |ps|
  {
    map x | x in VarsOf(ps) :: FirstCell(ps, s, rows, x)
  }

  lemma {:induction false} RowsGiveAssignment(ps: seq<Pattern>, s: Schema, rows: seq<Row>, rel: set<Row>)
    requires RowsMatch(ps, s, rows, rel) && RowsJoin(ps, s, rows)
    ensures var sigma := AssignmentOf(ps, s, rows);
            sigma.Keys == VarsOf(ps) && forall p :: p in ps ==> PatternHolds(p, s, sigma, rel)
  {
    hide ConstsMatch, CellAt, FirstCell, LocsFrom, VarsOf;
    var sigma := AssignmentOf(ps, s, rows);
    forall p | p in ps ensures PatternHolds(p, s, sigma, rel) {
      var i :| 0 <= i < |ps| && ps[i] == p;
      forall x, col | OccursAt(p, x, col) ensures x in sigma && sigma[x] == CellAt(p, s, col, rows[i]) {
        assert StandsAt(ps, x, i, col);
        VarsOfIff(ps, x);
      }
      assert Matches(p, s, sigma, rows[i]);
    }
  }

  /** One row for each pattern, in order. */
  lemma {:induction false} ChooseRows(ps: seq<Pattern>, s: Schema, sigma: Assignment, rel: set<Row>)
                                      returns (rows: seq<Row>)
    requires forall p :: p in ps ==> PatternHolds(p, s, sigma, rel)
    ensures |rows| == |ps| && forall i :: 0 <= i < |ps| ==> rows[i] in rel && Matches(ps[i], s, sigma, rows[i])
  {
    hide Matches;
    if ps == [] {
      rows := [];
    } else {
      var n := |ps| - 1;
      rows := ChooseRows(ps[..n], s, sigma, rel);
      assert PatternHolds(ps[n], s, sigma, rel);
      var r :| r in rel && Matches(ps[n], s, sigma, r);
      rows := rows + [r];
    }
  }

  lemma {:induction false} AssignmentGivesRows(ps: seq<Pattern>, s: Schema, sigma: Assignment, rel: set<Row>)
                                               returns (rows: seq<Row>)
    requires sigma.Keys == VarsOf(ps) && forall p :: p in ps ==> PatternHolds(p, s, sigma, rel)
    ensures RowsMatch(ps, s, rows, rel) && RowsJoin(ps, s, rows) && AssignmentOf(ps, s, rows) == sigma
  {
    rows := ChooseRows(ps, s, sigma, rel);
    hide ConstsMatch, CellAt, VarsOf, LocsFrom;
    forall i | 0 <= i < |ps| ensures rows[i] in rel && ConstsMatch(ps[i], s, rows[i]) {
      assert Matches(ps[i], s, sigma, rows[i]);
    }
    forall x, i, col | StandsAt(ps, x, i, col)
      ensures x in sigma && CellIn(ps, s, rows, Loc(i, col)) == sigma[x]
    {
      assert Matches(ps[i], s, sigma, rows[i]);
    }
    forall x | x in VarsOf(ps) ensures FirstCell(ps, s, rows, x) == sigma[x] {
      PlacesOfVar(ps, x);
      var l := LocsFrom(ps, x)[0];
      assert StandsAt(ps, x, l.table, l.col);
    }
    forall x, i, col | StandsAt(ps, x, i, col) ensures x in VarsOf(ps) {
      VarsOfIff(ps, x);
    }
  }
}
