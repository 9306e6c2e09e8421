/** The algebrizer (query/algebrize.go) as it runs: tables, places and types are
    recorded pattern by pattern, joins are emitted in whatever order the place map is
    traversed. Each method is proved against the functions of Algebra. */
module Algebrize {
  import opened Prelude
  import opened Values
  import opened Store
  import opened Sql
  import opened Datalog
  import opened Algebra
  import opened Places

  datatype AlgebraError = AttributeNotString | UnknownAttribute | UnresolvedVariable

  type PlaceMap = map<Var, seq<Loc>>

  /** The places recorded for a variable. */
  function PlacesIn(m: PlaceMap, x: Var): seq<Loc> {
    if x in m then m[x] else []
  }

  /** The marker of an :in variable comes before its places. */
  function MarkedPlaces(ins: set<Var>, ps: seq<Pattern>, x: Var): seq<Loc> {
    (if x in ins then [Loc(-1, ColE)] else []) + LocsFrom(ps, x)
  }

  /** Why a pattern is refused, if it is. */
  function PatternError(p: Pattern, s: Schema): Option<AlgebraError> {
    if !Bound(p.a) then None
    else if !p.a.c.VString? then Some(AttributeNotString)
    else if p.a.c.s !in s.byIdent then Some(UnknownAttribute)
    else None
  }

  predicate ArgResolves(ins: set<Var>, ps: seq<Pattern>, el: Elem) {
    el.EVar? ==> el.x in ins || LocsFrom(ps, el.x) != []
  }

  ghost predicate ExprResolves(ins: set<Var>, ps: seq<Pattern>, x: Expr) {
    forall el :: el in x.args ==> ArgResolves(ins, ps, el)
  }

  /** A (not ...) body is accepted: attributes are known, and each expression's variables
      stand in patterns before it. */
  ghost predicate BodyAccepted(body: seq<Simple>, s: Schema) {
    && (forall c :: c in body && c.SPattern? ==> PatternError(c.p, s).None?)
    && (forall n :: 0 <= n < |body| && body[n].SExpr? ==> ExprResolves({}, PatternsOf(body[..n]), body[n].x))
  }

  ghost predicate Accepted(q: Query, s: Schema) {
    var body := SimplesOf(q.where);
    var ps, ins := PatternsOf(body), (set x | x in q.ins);
    && (forall p :: p in ps ==> PatternError(p, s).None?)
    && (forall x :: x in ExprsOf(body) ==> ExprResolves(ins, ps, x))
    && (forall n :: n in NotsOf(q.where) ==> BodyAccepted(n, s))
    && (forall x :: x in q.find ==> x in ins || LocsFrom(ps, x) != [])
  }

  lemma {:induction false} LocsSnoc(ps: seq<Pattern>, p: Pattern, x: Var)
    ensures LocsFrom(ps + [p], x) == LocsFrom(ps, x) + PatLocs(|ps|, p, x)
  {
    assert (ps + [p])[..|ps|] == ps;
  }

  lemma {:induction false} TypesSnoc(ps: seq<Pattern>, p: Pattern, s: Schema, parent: map<Var, ValueType>)
    ensures TypesFrom(ps + [p], s, parent)
         == if p.v.EVar? && PatType(p, s).Some? then TypesFrom(ps, s, parent)[p.v.x := PatType(p, s).value]
           else TypesFrom(ps, s, parent)
    ensures TablesFor(ps + [p], s) == TablesFor(ps, s) + [TableFor(|ps|, p, s)]
  {
    assert (ps + [p])[..|ps|] == ps;
  }

  /** What recordVar makes of one position of a pattern. */
  function Recorded(m: PlaceMap, el: Elem, table: int, col: Column): PlaceMap {
    if el.EVar? then m[el.x := PlacesIn(m, el.x) + [Loc(table, col)]] else m
  }

  function RecordedAll(m: PlaceMap, p: Pattern, table: int): PlaceMap {
    Recorded(Recorded(Recorded(Recorded(m, p.e, table, ColE), p.a, table, ColA), p.v, table, ColV), p.tx, table, ColTx)
  }

  /** The algebrizer's state after the patterns ps, with ins marked and types inherited. */
  ghost predicate IsAdded(tables: seq<TableBinding>, m: PlaceMap, types: map<Var, ValueType>, ps: seq<Pattern>,
                          ins: set<Var>, s: Schema,
                          parent: map<Var, ValueType>) {
    && tables == TablesFor(ps, s)
    && types == TypesFrom(ps, s, parent)
    && (forall x :: PlacesIn(m, x) == MarkedPlaces(ins, ps, x))
    && NoneEmpty(m)
  }

  lemma {:induction false} RecordedPlaces(m: PlaceMap, el: Elem, table: int, col: Column, x: Var)
    ensures PlacesIn(Recorded(m, el, table, col), x) == PlacesIn(m, x) + LocAt(table, el, col, x)
  {
  }

  lemma {:induction false} PatternPlaces(m: PlaceMap, p: Pattern, table: int, x: Var)
    ensures PlacesIn(RecordedAll(m, p, table), x) == PlacesIn(m, x) + PatLocs(table, p, x)
  {
    var m1 := Recorded(m, p.e, table, ColE);
    var m2 := Recorded(m1, p.a, table, ColA);
    var m3 := Recorded(m2, p.v, table, ColV);
    RecordedPlaces(m, p.e, table, ColE, x);
    RecordedPlaces(m1, p.a, table, ColA, x);
    RecordedPlaces(m2, p.v, table, ColV, x);
    RecordedPlaces(m3, p.tx, table, ColTx, x);
    hide Recorded, PlacesIn, LocAt;
  }

  lemma {:induction false} PlacesSnoc(m: PlaceMap, ins: set<Var>, ps: seq<Pattern>, p: Pattern, x: Var)
    requires PlacesIn(m, x) == MarkedPlaces(ins, ps, x)
    ensures PlacesIn(RecordedAll(m, p, |ps|), x) == MarkedPlaces(ins, ps + [p], x)
  {
    hide RecordedAll, PlacesIn, PatLocs, LocsFrom;
    LocsSnoc(ps, p, x);
    PatternPlaces(m, p, |ps|, x);
  }

  ghost predicate NoneEmpty(m: PlaceMap) {
    forall x :: x in m ==> m[x] != []
  }

  lemma {:induction false} RecordedNonempty(m: PlaceMap, el: Elem, table: int, col: Column)
    requires NoneEmpty(m)
    ensures NoneEmpty(Recorded(m, el, table, col))
  {
  }

  lemma {:induction false} RecordedAllNonempty(m: PlaceMap, p: Pattern, table: int)
    requires NoneEmpty(m)
    ensures NoneEmpty(RecordedAll(m, p, table))
  {
    var m1 := Recorded(m, p.e, table, ColE);
    var m2 := Recorded(m1, p.a, table, ColA);
    var m3 := Recorded(m2, p.v, table, ColV);
    RecordedNonempty(m, p.e, table, ColE);
    RecordedNonempty(m1, p.a, table, ColA);
    RecordedNonempty(m2, p.v, table, ColV);
    RecordedNonempty(m3, p.tx, table, ColTx);
    hide NoneEmpty, Recorded;
  }

  lemma {:induction false} AddedSnoc(tables: seq<TableBinding>, m: PlaceMap, types: map<Var, ValueType>,
                                     ps: seq<Pattern>, p: Pattern, ins: set<Var>, s: Schema,
                                     parent: map<Var, ValueType>)
    requires IsAdded(tables, m, types, ps, ins, s, parent)
    ensures IsAdded(tables + [TableFor(|ps|, p, s)], RecordedAll(m, p, |ps|),
                    if p.v.EVar? && PatType(p, s).Some? then types[p.v.x := PatType(p, s).value]
                      else types, ps + [p], ins, s, parent)
  {
    TypesSnoc(ps, p, s, parent);
    RecordedAllNonempty(m, p, |ps|);
    hide RecordedAll, PlacesIn, PatLocs, LocsFrom, TypesFrom, TablesFor, TableFor, PatType, NoneEmpty, MarkedPlaces;
    forall x ensures PlacesIn(RecordedAll(m, p, |ps|), x) == MarkedPlaces(ins, ps + [p], x) {
      PlacesSnoc(m, ins, ps, p, x);
    }
  }

  /** The places that are tables, not markers. */
  function Reals(locs: seq<Loc>): seq<Loc> {
    if locs == [] then [] else Reals(locs[..|locs| - 1]) + if locs[|locs| - 1].table >= 0 then [locs[|locs| - 1]]
      else []
  }

  lemma {:induction false} AllReal(locs: seq<Loc>)
    requires forall l :: l in locs ==> l.table >= 0
    ensures Reals(locs) == locs
  {
    if locs != [] {
      AllReal(locs[..|locs| - 1]);
    }
  }

  lemma {:induction false} RealsOfMarked(l: Loc, locs: seq<Loc>)
    requires l.table < 0
    ensures Reals([l] + locs) == Reals(locs)
  {
    if locs == [] {
      assert ([l] + locs)[..0] == [];
    } else {
      var n := |locs| - 1;
      assert ([l] + locs)[..|[l] + locs| - 1] == [l] + locs[..n];
      RealsOfMarked(l, locs[..n]);
    }
  }

  lemma {:induction false} RealPlacesOf(ins: set<Var>, ps: seq<Pattern>, x: Var)
    ensures Reals(MarkedPlaces(ins, ps, x)) == LocsFrom(ps, x)
  {
    hide LocsFrom, Reals;
    forall l | l in LocsFrom(ps, x) ensures l.table >= 0 {
      PlaceIff(ps, x, l);
    }
    AllReal(LocsFrom(ps, x));
    RealsOfMarked(Loc(-1, ColE), LocsFrom(ps, x));
    assert [] + LocsFrom(ps, x) == LocsFrom(ps, x);
  }

  /** The first place of a variable, kept once set. */
  function FirstAt(m: map<Var, Loc>, el: Elem, table: int, col: Column): map<Var, Loc> {
    if el.EVar? && el.x !in m then m[el.x := Loc(table, col)] else m
  }

  function FirstAll(m: map<Var, Loc>, p: Pattern, table: int): map<Var, Loc> {
    FirstAt(FirstAt(FirstAt(FirstAt(m, p.e, table, ColE), p.a, table, ColA), p.v, table, ColV), p.tx, table, ColTx)
  }

  predicate FirstIs(m: map<Var, Loc>, x: Var, locs: seq<Loc>) {
    (x in m <==> locs != []) && (x in m ==> m[x] == locs[0])
  }

  lemma {:induction false} FirstStep(m: map<Var, Loc>, el: Elem, table: int, col: Column, x: Var, locs: seq<Loc>)
    requires FirstIs(m, x, locs)
    ensures FirstIs(FirstAt(m, el, table, col), x, locs + LocAt(table, el, col, x))
  {
  }

  lemma {:induction false} FirstSnoc(m: map<Var, Loc>, ps: seq<Pattern>, p: Pattern, x: Var)
    requires FirstIs(m, x, LocsFrom(ps, x))
    ensures FirstIs(FirstAll(m, p, |ps|), x, LocsFrom(ps + [p], x))
  {
    var n, locs := |ps|, LocsFrom(ps, x);
    var m1 := FirstAt(m, p.e, n, ColE);
    var m2 := FirstAt(m1, p.a, n, ColA);
    var m3 := FirstAt(m2, p.v, n, ColV);
    var l1, l2, l3, l4 := LocAt(n, p.e, ColE, x), LocAt(n, p.a, ColA, x), LocAt(n, p.v, ColV, x),
      LocAt(n, p.tx, ColTx, x);
    FirstStep(m, p.e, n, ColE, x, locs);
    FirstStep(m1, p.a, n, ColA, x, locs + l1);
    FirstStep(m2, p.v, n, ColV, x, locs + l1 + l2);
    FirstStep(m3, p.tx, n, ColTx, x, locs + l1 + l2 + l3);
    LocsSnoc(ps, p, x);
    hide FirstAt, FirstIs, LocAt, LocsFrom;
    assert locs + l1 + l2 + l3 + l4 == locs + (l1 + l2 + l3 + l4);
  }

  ghost predicate FirstsOf(m: map<Var, Loc>, qs: seq<Pattern>) {
    forall x :: FirstIs(m, x, LocsFrom(qs, x))
  }

  lemma {:induction false} FirstsSnoc(m: map<Var, Loc>, qs: seq<Pattern>, p: Pattern)
    requires FirstsOf(m, qs)
    ensures FirstsOf(FirstAll(m, p, |qs|), qs + [p])
  {
    hide FirstIs, FirstAll, LocsFrom;
    forall x ensures FirstIs(FirstAll(m, p, |qs|), x, LocsFrom(qs + [p], x)) {
      assert FirstIs(m, x, LocsFrom(qs, x));
      FirstSnoc(m, qs, p, x);
    }
  }

  lemma {:induction false} TypesAdded(a: Algebrizer, ps: seq<Pattern>, parent: map<Var, ValueType>)
    requires a.HasAdded(ps, {}, parent)
    ensures a.varTypes == TypesFrom(ps, a.schema, parent) && a.tables == TablesFor(ps, a.schema)
  {
  }

  lemma {:induction false} EmptyBody(s: Schema, parent: map<Var, ValueType>)
    ensures PatternsOf([]) == [] && InnerFilters([], s, parent) == [] && BodyAccepted([], s)
  {
  }

  /** Accepting a body clause by clause. */
  lemma {:induction false} BodySnoc(body: seq<Simple>, i: nat, s: Schema, parent: map<Var, ValueType>)
    requires i < |body| && BodyAccepted(body[..i], s)
    ensures BodyAccepted(body[..i + 1], s) <==>
            if body[i].SPattern? then PatternError(body[i].p, s).None?
              else ExprResolves({}, PatternsOf(body[..i]), body[i].x)
    ensures !BodyAccepted(body[..i + 1], s) ==> !BodyAccepted(body, s)
    ensures PatternsOf(body[..i + 1]) == PatternsOf(body[..i]) + if body[i].SPattern? then [body[i].p] else []
    ensures InnerFilters(body[..i + 1], s, parent) == InnerFilters(body[..i], s, parent)
            + if body[i].SExpr? then [ResolvedFilter(PatternsOf(body[..i]),
                                                     TypesFrom(PatternsOf(body[..i]), s, parent), {}, body[i].x)]
              else []
  {
    var b := body[..i + 1];
    assert b[..i] == body[..i] && b[i] == body[i];
    hide ResolvedFilter, TypesFrom, ExprResolves, PatternError, PatternsOf, InnerFilters;
    InnerSnoc(b, i, s, parent);
    assert forall n :: 0 <= n <= i ==> b[..n] == body[..n];
    assert forall n :: 0 <= n < i ==> body[..i][..n] == body[..n] && body[..i][n] == body[n];
    AcceptedSnoc(body, i, s);
  }

  lemma {:induction false} InnerSnoc(b: seq<Simple>, i: nat, s: Schema, parent: map<Var, ValueType>)
    requires |b| == i + 1
    ensures PatternsOf(b) == PatternsOf(b[..i]) + if b[i].SPattern? then [b[i].p] else []
    ensures InnerFilters(b, s, parent) == InnerFilters(b[..i], s, parent)
            + if b[i].SExpr? then [ResolvedFilter(PatternsOf(b[..i]), TypesFrom(PatternsOf(b[..i]), s, parent), {},
                                                  b[i].x)] else []
  {
  }

  lemma {:induction false} AcceptedSnoc(body: seq<Simple>, i: nat, s: Schema)
    requires i < |body| && BodyAccepted(body[..i], s)
    ensures BodyAccepted(body[..i + 1], s) <==>
            if body[i].SPattern? then PatternError(body[i].p, s).None?
              else ExprResolves({}, PatternsOf(body[..i]), body[i].x)
    ensures !BodyAccepted(body[..i + 1], s) ==> !BodyAccepted(body, s)
  {
    hide PatternsOf, ExprResolves, PatternError;
    var b := body[..i + 1];
    forall n | 0 <= n <= i ensures b[..n] == body[..n] {
    }
    forall n | 0 <= n < i ensures body[..i][..n] == body[..n] && body[..i][n] == body[n] {
    }
    assert forall c :: c in b <==> c in body[..i] || c == body[i];
    assert b[i] in b && body[i] in body;
  }

  class Algebrizer {
    const schema: Schema
    var tables: seq<TableBinding>
    var varMap: PlaceMap
    var varTypes: map<Var, ValueType>

    constructor (schema: Schema, ins: seq<Var>, parent: map<Var, ValueType>)
      ensures this.schema == schema
      ensures HasAdded([], (set x | x in ins), parent)
    {
      this.schema := schema;
      tables := [];
      varTypes := parent;
      varMap := map x | x in ins :: [Loc(-1, ColE)];
    }

    /** The patterns ps have been added. */
    ghost predicate HasAdded(ps: seq<Pattern>, ins: set<Var>, parent: map<Var, ValueType>)
      reads this
    {
      IsAdded(tables, varMap, varTypes, ps, ins, schema, parent)
    }

    /** recordVar, for a position that holds a variable. */
    method RecordVar(el: Elem, table: int, col: Column)
      modifies this`varMap
      ensures varMap == Recorded(old(varMap), el, table, col)
    {
      if el.EVar? {
        varMap := varMap[el.x := (if el.x in varMap then varMap[el.x] else []) + [Loc(table, col)]];
      }
    }

    /** One pattern: its table, its places in the order e, a, v, tx, and the type of its
        value variable. */
    method AddPattern(p: Pattern, ghost ps: seq<Pattern>, ghost ins: set<Var>, ghost parent: map<Var, ValueType>)
                      returns (r: Result<(), AlgebraError>)
      requires HasAdded(ps, ins, parent)
      modifies this
      ensures r == match PatternError(p, schema) case None => Ok(()) case Some(err) => Err(err)
      ensures r.Ok? ==> HasAdded(ps + [p], ins, parent)
    {
      assert |tables| == |ps|;
      hide IsAdded, TablesFor, Recorded;
      var idx := |tables|;
      var eBound, vBound, txBound := VNil, VNil, VNil;
      var attrID, valueType := 0, None;
      RecordVar(p.e, idx, ColE);
      if p.e.EConst? {
        eBound := p.e.c;
      }
      RecordVar(p.a, idx, ColA);
      if p.a.EConst? && p.a.c != VNil {
        if !p.a.c.VString? {
          return Err(AttributeNotString);
        }
        if p.a.c.s !in schema.byIdent {
          return Err(UnknownAttribute);
        }
        attrID := schema.byIdent[p.a.c.s].id;
        valueType := Some(schema.byIdent[p.a.c.s].valueType);
      }
      RecordVar(p.v, idx, ColV);
      if p.v.EVar? && valueType.Some? {
        varTypes := varTypes[p.v.x := valueType.value];
      } else if p.v.EConst? {
        vBound := p.v.c;
      }
      RecordVar(p.tx, idx, ColTx);
      if p.tx.EConst? {
        txBound := p.tx.c;
      }
      tables := tables + [TableBinding(D(idx), CurrentDatoms, attrID, valueType, eBound, vBound, txBound, p)];
      assert tables == old(tables) + [TableFor(|ps|, p, schema)];
      assert varMap == RecordedAll(old(varMap), p, |ps|);
      AddedSnoc(old(tables), old(varMap), old(varTypes), ps, p, ins, schema, parent);
      r := Ok(());
    }

    /** The star joins of one variable: its first place with each later one. */
    static method StarJoinsOf(x: Var, locs: seq<Loc>) returns (joins: seq<Join>)
      ensures forall j :: j in joins <==> exists k :: 1 <= k < |locs| && j == StarJoin(x, locs, k)
    {
      joins := [];
      var i := 1;
      while i < |locs|
        invariant 1 <= i
        invariant forall j :: j in joins <==> exists k :: 1 <= k < i && k < |locs| && j == StarJoin(x, locs, k)
      {
        joins := joins + [Join(x, locs[0].table, locs[0].col, locs[i].table, locs[i].col)];
        assert joins[|joins| - 1] == StarJoin(x, locs, i);
        i := i + 1;
      }
    }

    static method RealPlaces(locs: seq<Loc>) returns (reals: seq<Loc>)
      ensures reals == Reals(locs)
    {
      reals := [];
      for i := 0 to |locs|
        invariant reals == Reals(locs[..i])
      {
        if locs[i].table >= 0 {
          reals := reals + [locs[i]];
        }
        assert locs[..i + 1][..i] == locs[..i];
      }
      assert locs[..|locs|] == locs;
    }

    /** buildJoins, over the variables in any order: exactly the star joins. */
    method BuildJoins(ghost ps: seq<Pattern>, ghost ins: set<Var>, ghost parent: map<Var, ValueType>)
                      returns (joins: seq<Join>)
      requires HasAdded(ps, ins, parent)
      ensures forall j :: j in joins <==> IsStarJoin(ps, j)
    {
      joins := [];
      var left := varMap.Keys;
      while left != {}
        invariant left <= varMap.Keys
        invariant forall j :: j in joins <==> j.x in varMap.Keys - left && IsStarJoin(ps, j)
        decreases |left|
      {
        var x :| x in left;
        left := left - {x};
        var reals := RealPlaces(varMap[x]);
        assert PlacesIn(varMap, x) == MarkedPlaces(ins, ps, x);
        RealPlacesOf(ins, ps, x);
        var more := StarJoinsOf(x, reals);
        hide LocsFrom, IsAdded, Reals;
        assert forall j :: j in more <==> j.x == x && IsStarJoin(ps, j);
        joins := joins + more;
      }
      forall j | IsStarJoin(ps, j) ensures j.x in varMap {
        assert PlacesIn(varMap, j.x) == MarkedPlaces(ins, ps, j.x);
      }
    }

    /** resolveFilterArg: a variable reads its first place, an :in variable its marker. */
    method ResolveFilterArg(el: Elem, ghost ps: seq<Pattern>, ghost ins: set<Var>, ghost parent: map<Var, ValueType>)
      returns (r: Result<FilterArg, AlgebraError>)
      requires HasAdded(ps, ins, parent)
      ensures r == if ArgResolves(ins, ps, el) then Ok(ResolvedArg(LocsFrom(ps, VarName(el)), varTypes, ins, el))
              else Err(UnresolvedVariable)
    {
      hide LocsFrom, TablesFor, TypesFrom;
      if el.EVar? {
        assert PlacesIn(varMap, el.x) == MarkedPlaces(ins, ps, el.x);
        var locs := if el.x in varMap then varMap[el.x] else [];
        if locs == [] {
          return Err(UnresolvedVariable);
        }
        MarkedFirst(ins, ps, el.x);
        var t := if el.x in varTypes then Some(varTypes[el.x]) else None;
        if locs[0].table == -1 {
          return Ok(FVar(el.x, -1, ColE, t));
        }
        return Ok(FVar(el.x, locs[0].table, locs[0].col, t));
      }
      return Ok(FConst(if el.EConst? then el.c else VNil, None));
    }

    /** The type of the first typed variable goes to the untyped constants. */
    static method TypeConstants(args: seq<FilterArg>) returns (typed: seq<FilterArg>)
      ensures typed == Typed(args, InferredType(args))
    {
      var t := None;
      var i := 0;
      while i < |args| && t.None?
        invariant i <= |args|
        invariant InferredType(args) == if t.Some? then t else InferredType(args[i..])
      {
        if args[i].FVar? && args[i].valueType.Some? {
          t := args[i].valueType;
        }
        assert args[i..][1..] == args[i + 1..];
        i := i + 1;
      }
      assert t == InferredType(args);
      hide InferredType;
      typed := args;
      if t.Some? {
        for k := 0 to |args|
          invariant |typed| == |args|
          invariant forall n :: 0 <= n < |args| ==>
            typed[n] == if n < k && args[n].FConst? && args[n].valueType.None? then FConst(args[n].c, t) else args[n]
        {
          if typed[k].FConst? && typed[k].valueType.None? {
            typed := typed[k := FConst(typed[k].c, t)];
          }
        }
      }
      assert typed == Typed(args, t);
    }

    /** resolveFilter: the arguments in order, then a type for the constants. */
    method ResolveFilter(x: Expr, ghost ps: seq<Pattern>, ghost ins: set<Var>, ghost parent: map<Var, ValueType>)
      returns (r: Result<Filter, AlgebraError>)
      requires HasAdded(ps, ins, parent)
      ensures r.Ok? <==> ExprResolves(ins, ps, x)
      ensures r.Ok? ==> r.value == ResolvedFilter(ps, varTypes, ins, x)
    {
      hide IsAdded, LocsFrom, ResolvedArg, ArgResolves;
      var args := [];
      for i := 0 to |x.args|
        invariant args == ResolvedArgs(ps, varTypes, ins, x.args[..i])
        invariant forall k :: 0 <= k < i ==> ArgResolves(ins, ps, x.args[k])
      {
        var a := ResolveFilterArg(x.args[i], ps, ins, parent);
        if a.Err? {
          return Err(a.error);
        }
        args := args + [a.value];
        assert x.args[..i + 1][..i] == x.args[..i];
      }
      assert x.args[..|x.args|] == x.args;
      var typed := TypeConstants(args);
      hide ResolvedArgs, Typed, InferredType;
      r := Ok(Filter(x.fn, typed));
    }

    /** resolveFindElem. */
    method ResolveFindElem(x: Var, ghost ps: seq<Pattern>, ghost ins: set<Var>, ghost parent: map<Var, ValueType>)
      returns (r: Result<FindMapping, AlgebraError>)
      requires HasAdded(ps, ins, parent)
      ensures r == if x in ins || LocsFrom(ps, x) != [] then Ok(ResolvedFind(ps, varTypes, ins, x))
              else Err(UnresolvedVariable)
    {
      hide LocsFrom, TablesFor, TypesFrom;
      assert PlacesIn(varMap, x) == MarkedPlaces(ins, ps, x);
      var locs := if x in varMap then varMap[x] else [];
      if locs == [] {
        return Err(UnresolvedVariable);
      }
      MarkedFirst(ins, ps, x);
      r := Ok(FindMapping(x, locs[0].table, locs[0].col, if x in varTypes then Some(varTypes[x]) else None));
    }

    /** The first place of every variable of a subquery. */
    static method FirstPlaces(tables: seq<TableBinding>, ghost qs: seq<Pattern>, ghost s: Schema)
                              returns (m: map<Var, Loc>)
      requires tables == TablesFor(qs, s)
      ensures FirstsOf(m, qs)
    {
      m := map[];
      assert qs[..0] == [];
      for i := 0 to |tables|
        invariant FirstsOf(m, qs[..i])
      {
        var p := tables[i].pattern;
        assert p == qs[i] && qs[..i + 1] == qs[..i] + [p];
        ghost var before := m;
        m := FirstAt(m, p.e, i, ColE);
        m := FirstAt(m, p.a, i, ColA);
        m := FirstAt(m, p.v, i, ColV);
        m := FirstAt(m, p.tx, i, ColTx);
        assert m == FirstAll(before, p, i);
        FirstsSnoc(before, qs[..i], p);
      }
      assert qs[..|qs|] == qs;
    }

    /** buildSubqueryJoins: from the outer first place of each shared variable to the
        inner one, in any order. */
    method BuildSubqueryJoins(tables: seq<TableBinding>, ghost qs: seq<Pattern>, ghost ps: seq<Pattern>,
                              ghost ins: set<Var>, ghost parent: map<Var, ValueType>)
      returns (joins: seq<Join>)
      requires HasAdded(ps, ins, parent) && tables == TablesFor(qs, schema)
      ensures forall j :: j in joins <==> IsCorrelation(ps, ins, qs, j)
    {
      var subVars := FirstPlaces(tables, qs, schema);
      joins := [];
      var left := subVars.Keys;
      while left != {}
        invariant left <= subVars.Keys
        invariant forall j :: j in joins <==> j.x in subVars.Keys - left && IsCorrelation(ps, ins, qs, j)
        decreases |left|
      {
        var x :| x in left;
        left := left - {x};
        assert FirstIs(subVars, x, LocsFrom(qs, x));
        assert PlacesIn(varMap, x) == MarkedPlaces(ins, ps, x);
        MarkedFirst(ins, ps, x);
        hide LocsFrom, IsAdded, MarkedPlaces;
        if x in varMap && varMap[x] != [] {
          var j := Join(x, varMap[x][0].table, varMap[x][0].col, subVars[x].table, subVars[x].col);
          assert forall k :: k == j <==> k.x == x && IsCorrelation(ps, ins, qs, k);
          joins := joins + [j];
        } else {
          assert forall k :: IsCorrelation(ps, ins, qs, k) ==> k.x != x;
        }
      }
      forall j | IsCorrelation(ps, ins, qs, j) ensures j.x in subVars {
        assert FirstIs(subVars, j.x, LocsFrom(qs, j.x));
      }
    }

    /** algebrizeSubquery, for the body of a (not ...). */
    method AlgebrizeSubquery(body: seq<Simple>) returns (r: Result<Body, AlgebraError>)
      ensures r.Ok? <==> BodyAccepted(body, schema)
      ensures r.Ok? ==> var qs := PatternsOf(body);
                && r.value.tables == TablesFor(qs, schema) && (forall j :: j in r.value.joins <==> IsStarJoin(qs, j))
                && r.value.filters == InnerFilters(body, schema, varTypes)
    {
      hide IsAdded, InnerFilters, PatternsOf, ResolvedFilter, TypesFrom, TablesFor, BodyAccepted, PatternError,
        ExprResolves, IsStarJoin;
      var none: seq<Var> := [];
      var sub := new Algebrizer(schema, none, varTypes);
      assert (set x | x in none) == {};
      var filters := [];
      assert body[..0] == [];
      EmptyBody(schema, varTypes);
      for i := 0 to |body|
        invariant sub.schema == schema && fresh(sub)
        invariant sub.HasAdded(PatternsOf(body[..i]), {}, varTypes)
        invariant filters == InnerFilters(body[..i], schema, varTypes)
        invariant BodyAccepted(body[..i], schema)
      {
        ghost var qs := PatternsOf(body[..i]);
        BodySnoc(body, i, schema, varTypes);
        TypesAdded(sub, qs, varTypes);
        match body[i]
        case SPattern(p) =>
          var e := sub.AddPattern(p, qs, {}, varTypes);
          if e.Err? {
            return Err(e.error);
          }
        case SExpr(x) =>
          var f := sub.ResolveFilter(x, qs, {}, varTypes);
          if f.Err? {
            return Err(f.error);
          }
          filters := filters + [f.value];
          assert PatternsOf(body[..i + 1]) == qs;
      }
      assert body[..|body|] == body;
      TypesAdded(sub, PatternsOf(body), varTypes);
      var joins := sub.BuildJoins(PatternsOf(body), {}, varTypes);
      r := Ok(Body(sub.tables, joins, filters));
    }
  }

  lemma {:induction false} MarkedFirst(ins: set<Var>, ps: seq<Pattern>, x: Var)
    ensures var locs := MarkedPlaces(ins, ps, x);
            && (locs == [] <==> x !in ins && LocsFrom(ps, x) == [])
            && (x in ins ==> locs[0] == Loc(-1, ColE))
            && (x !in ins && locs != [] ==> locs[0] == LocsFrom(ps, x)[0] && locs[0].table >= 0)
  {
    if LocsFrom(ps, x) != [] {
      PlaceIff(ps, x, LocsFrom(ps, x)[0]);
    }
    hide LocsFrom;
  }

  /** Algebrize: every clause in turn, joins, expressions, negations, results. A query is
      accepted or refused as Accepted says, and what it becomes is its algebraic form. */
  method Algebrize(q: Query, schema: Schema) returns (r: Result<Algebraic, AlgebraError>)
    ensures r.Ok? <==> Accepted(q, schema)
    ensures r.Ok? ==> IsAlgebraOf(q, schema, r.value)
  {
    ghost var ins := set x | x in q.ins;
    var alg := new Algebrizer(schema, q.ins, map[]);
    var exprs, notClauses := [], [];
    assert q.where[..0] == [];
    for i := 0 to |q.where|
      invariant alg.schema == schema && fresh(alg)
      invariant alg.HasAdded(PatternsOf(SimplesOf(q.where[..i])), ins, map[])
      invariant exprs == ExprsOf(SimplesOf(q.where[..i])) && notClauses == NotsOf(q.where[..i])
      invariant forall p :: p in PatternsOf(SimplesOf(q.where[..i])) ==> PatternError(p, schema).None?
    {
      hide IsAdded, PatternsOf, ExprsOf, SimplesOf, NotsOf, PatternError, ExprResolves, BodyAccepted;
      var c := q.where[i];
      assert q.where[..i + 1] == q.where[..i] + [c];
      SimplesSnoc(q.where[..i], c);
      match c
      case CNot(body) => notClauses := notClauses + [body];
      case CSimple(s) =>
        PartsSnoc(SimplesOf(q.where[..i]), s);
        match s
        case SExpr(x) => exprs := exprs + [x];
        case SPattern(p) =>
          var e := alg.AddPattern(p, PatternsOf(SimplesOf(q.where[..i])), ins, map[]);
          if e.Err? {
            PatternIsIn(q.where, i);
            return Err(e.error);
          }
    }
    assert q.where[..|q.where|] == q.where;
    ghost var ps := PatternsOf(SimplesOf(q.where));
    assert alg.tables == TablesFor(ps, schema) && alg.varTypes == TypesFrom(ps, schema, map[]);
    hide IsAdded, PatternsOf, ExprsOf, SimplesOf, NotsOf, PatternError, ExprResolves, BodyAccepted, IsInner,
      ResolvedFilter, ResolvedFind, IsStarJoin, IsCorrelation;
    var joins := alg.BuildJoins(ps, ins, map[]);
    var filters := ResolveFilters(alg, exprs, ps, ins);
    if filters.Err? {
      return Err(filters.error);
    }
    var nots := ResolveNots(alg, notClauses, ps, ins);
    if nots.Err? {
      return Err(nots.error);
    }
    var find := ResolveFind(alg, q.find, ps, ins);
    if find.Err? {
      return Err(find.error);
    }
    r := Ok(Algebraic(find.value, Body(alg.tables, joins, filters.value), [], nots.value));
  }

  method ResolveFilters(alg: Algebrizer, exprs: seq<Expr>, ghost ps: seq<Pattern>, ghost ins: set<Var>)
                        returns (r: Result<seq<Filter>, AlgebraError>)
    requires alg.HasAdded(ps, ins, map[])
    ensures r.Ok? <==> forall x :: x in exprs ==> ExprResolves(ins, ps, x)
    ensures r.Ok? ==> r.value == ResolvedFilters(ps, alg.varTypes, ins, exprs)
  {
    hide IsAdded, ExprResolves, ResolvedFilter;
    var filters := [];
    for i := 0 to |exprs|
      invariant filters == ResolvedFilters(ps, alg.varTypes, ins, exprs[..i])
      invariant forall x :: x in exprs[..i] ==> ExprResolves(ins, ps, x)
    {
      var f := alg.ResolveFilter(exprs[i], ps, ins, map[]);
      if f.Err? {
        return Err(f.error);
      }
      filters := filters + [f.value];
      assert exprs[..i + 1][..i] == exprs[..i];
    }
    assert exprs[..|exprs|] == exprs;
    r := Ok(filters);
  }

  method ResolveNots(alg: Algebrizer, notClauses: seq<seq<Simple>>, ghost ps: seq<Pattern>, ghost ins: set<Var>)
                     returns (r: Result<seq<Body>, AlgebraError>)
    requires alg.HasAdded(ps, ins, map[])
    ensures r.Ok? <==> forall n :: n in notClauses ==> BodyAccepted(n, alg.schema)
    ensures r.Ok? ==> |r.value| == |notClauses|
                      && forall i :: 0 <= i < |notClauses| ==> IsInner(ps, ins, alg.schema, notClauses[i], r.value[i])
  {
    assert alg.varTypes == TypesFrom(ps, alg.schema, map[]);
    hide IsAdded, BodyAccepted, InnerFilters, IsStarJoin, IsCorrelation, TypesFrom, PatternsOf;
    var nots := [];
    for i := 0 to |notClauses|
      invariant |nots| == i
      invariant forall k :: 0 <= k < i ==> BodyAccepted(notClauses[k], alg.schema)
      invariant forall k :: 0 <= k < i ==> IsInner(ps, ins, alg.schema, notClauses[k], nots[k])
    {
      var b := alg.AlgebrizeSubquery(notClauses[i]);
      if b.Err? {
        return Err(b.error);
      }
      var more := alg.BuildSubqueryJoins(b.value.tables, PatternsOf(notClauses[i]), ps, ins, map[]);
      nots := nots + [b.value.(joins := b.value.joins + more)];
    }
    r := Ok(nots);
  }

  method ResolveFind(alg: Algebrizer, find: seq<Var>, ghost ps: seq<Pattern>, ghost ins: set<Var>)
                     returns (r: Result<seq<FindMapping>, AlgebraError>)
    requires alg.HasAdded(ps, ins, map[])
    ensures r.Ok? <==> forall x :: x in find ==> x in ins || LocsFrom(ps, x) != []
    ensures r.Ok? ==> |r.value| == |find|
                      && forall i :: 0 <= i < |find| ==> r.value[i] == ResolvedFind(ps, alg.varTypes, ins, find[i])
  {
    hide IsAdded, LocsFrom, ResolvedFind;
    var out := [];
    for i := 0 to |find|
      invariant |out| == i && forall k :: 0 <= k < i ==>
        (find[k] in ins || LocsFrom(ps, find[k]) != []) && out[k] == ResolvedFind(ps, alg.varTypes, ins, find[k])
    {
      var m := alg.ResolveFindElem(find[i], ps, ins, map[]);
      if m.Err? {
        return Err(m.error);
      }
      out := out + [m.value];
    }
    r := Ok(out);
  }
}
