/** What of a compiled query depends only on the aliases and value types of its tables:
    everything but the FROM clause and the conditions on single tables. */
module Shapes {
  import opened Prelude
  import opened Values
  import opened Store
  import opened Sql
  import opened Datalog
  import opened Algebra
  import opened Placeholders

  ghost predicate SameShape(tbs: seq<TableBinding>, ubs: seq<TableBinding>) {
    |tbs| == |ubs| && forall i ::
                        0 <= i < |tbs| ==> tbs[i].alias == ubs[i].alias && tbs[i].valueType == ubs[i].valueType
  }

  lemma {:induction false} SamePlace(tbs: seq<TableBinding>, ubs: seq<TableBinding>, i: int, col: Column)
    requires SameShape(tbs, ubs)
    ensures PlaceOf(tbs, i, col) == PlaceOf(ubs, i, col) && ValueTypeOf(tbs, i) == ValueTypeOf(ubs, i)
  {
  }

  lemma {:induction false} SameJoins(tbs: seq<TableBinding>, ubs: seq<TableBinding>, js: seq<Join>)
    requires SameShape(tbs, ubs)
    ensures JoinAtoms(tbs, js) == JoinAtoms(ubs, js)
  {
    hide PlaceOf, ValueTypeOf, SameShape;
    if js != [] {
      var j := js[|js| - 1];
      SameJoins(tbs, ubs, js[..|js| - 1]);
      SamePlace(tbs, ubs, j.leftTable, ReadCol(j.leftCol, ValueTypeOf(tbs, j.leftTable)));
      SamePlace(tbs, ubs, j.rightTable, ReadCol(j.rightCol, ValueTypeOf(tbs, j.rightTable)));
    }
  }

  lemma {:induction false} SameClosedFilter(tbs: seq<TableBinding>, ubs: seq<TableBinding>, f: Filter)
    requires SameShape(tbs, ubs)
    ensures ClosedFilter(tbs, f) == ClosedFilter(ubs, f)
  {
    hide PlaceOf, SameShape, ReadCol;
    forall i | 0 <= i < |f.args| ensures ClosedArg(tbs, f.args[i]) == ClosedArg(ubs, f.args[i]) {
      if f.args[i].FVar? {
        SamePlace(tbs, ubs, f.args[i].table, ReadCol(f.args[i].col, f.args[i].valueType));
      }
    }
    assert ClosedArgs(tbs, f.args) == ClosedArgs(ubs, f.args);
  }

  lemma {:induction false} SameClosedFilters(tbs: seq<TableBinding>, ubs: seq<TableBinding>, fs: seq<Filter>)
    requires SameShape(tbs, ubs)
    ensures ClosedFilters(tbs, fs) == ClosedFilters(ubs, fs)
  {
    hide SameShape, ClosedFilter;
    if fs != [] {
      SameClosedFilters(tbs, ubs, fs[..|fs| - 1]);
      SameClosedFilter(tbs, ubs, fs[|fs| - 1]);
    }
  }

  lemma {:induction false} SameInnerJoins(tbs: seq<TableBinding>, ubs: seq<TableBinding>, inner: seq<TableBinding>,
                                          js: seq<Join>)
    requires SameShape(tbs, ubs)
    ensures InnerJoinAtoms(tbs, inner, js) == InnerJoinAtoms(ubs, inner, js)
  {
    hide PlaceOf, SameShape;
    if js != [] {
      var j := js[|js| - 1];
      SameInnerJoins(tbs, ubs, inner, js[..|js| - 1]);
      SamePlace(tbs, ubs, j.leftTable, j.leftCol);
    }
  }

  lemma {:induction false} SameNots(tbs: seq<TableBinding>, ubs: seq<TableBinding>, nots: seq<Body>)
    requires SameShape(tbs, ubs)
    ensures ClosedNots(tbs, nots) == ClosedNots(ubs, nots)
  {
    hide SameShape, ClosedBody;
    if nots != [] {
      var n := nots[|nots| - 1];
      SameNots(tbs, ubs, nots[..|nots| - 1]);
      SameInnerJoins(tbs, ubs, n.tables, n.joins);
    }
  }

  lemma {:induction false} SameSelect(tbs: seq<TableBinding>, ubs: seq<TableBinding>, fs: seq<FindMapping>)
    requires SameShape(tbs, ubs)
    ensures SelectCols(tbs, fs) == SelectCols(ubs, fs)
  {
    hide SameShape, PlaceOf, ReadCol;
    if fs != [] {
      var f := fs[|fs| - 1];
      SameSelect(tbs, ubs, fs[..|fs| - 1]);
      SamePlace(tbs, ubs, f.table, ReadCol(f.col, f.valueType));
      SamePlace(tbs, ubs, f.table, ColVType);
    }
  }

  lemma {:induction false} SameTables(tbs: seq<TableBinding>, ubs: seq<TableBinding>)
    requires |tbs| == |ubs| && forall i :: 0 <= i < |tbs| ==> ClosedTable(tbs[i]) == ClosedTable(ubs[i])
    ensures ClosedTables(tbs) == ClosedTables(ubs)
  {
    hide ClosedTable;
    if tbs != [] {
      SameTables(tbs[..|tbs| - 1], ubs[..|ubs| - 1]);
    }
  }

  lemma {:induction false} SameFroms(tbs: seq<TableBinding>, ubs: seq<TableBinding>)
    requires |tbs| == |ubs| && forall i ::
                                 0 <= i < |tbs| ==> tbs[i].alias == ubs[i].alias && tbs[i].table == ubs[i].table
    ensures Froms(tbs) == Froms(ubs)
  {
  }
}
