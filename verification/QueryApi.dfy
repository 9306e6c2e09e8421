/** The query API (query_api.go) as it runs: an algebraic query is rewritten in place by
    bindInputArgs and applyAsOf, translated, and its parameters encoded. */
module QueryApi {
  import opened Prelude
  import opened Values
  import opened Store
  import opened Sql
  import opened Datalog
  import opened Algebra
  import opened Placeholders
  import opened Inputs
  import opened AsOf
  import Algebrize
  import Translate

  // ---------------------------------------------------------------------
  // Binding in order
  // ---------------------------------------------------------------------

  /** The first input that fails decides the error. */
  lemma {:induction false} FirstErrorWins(b: Body, xs: seq<Var>, vs: seq<Value>, i: nat)
    requires i < |xs| <= |vs| && BindInputs(b, xs[..i + 1], vs).Err?
    ensures BindInputs(b, xs, vs) == BindInputs(b, xs[..i + 1], vs)
    decreases |xs|
  {
    hide BindInput;
    if i < |xs| - 1 {
      assert xs[..|xs| - 1][..i + 1] == xs[..i + 1];
      FirstErrorWins(b, xs[..|xs| - 1], vs, i);
    } else {
      assert xs[..i + 1] == xs;
    }
  }

  lemma {:induction false} InputsSnoc(b: Body, xs: seq<Var>, vs: seq<Value>, i: nat)
    requires i < |xs| <= |vs| && BindInputs(b, xs[..i], vs).Ok?
    ensures BindInputs(b, xs[..i + 1], vs) == BindInput(BindInputs(b, xs[..i], vs).value, xs[i], vs[i])
  {
    hide BindInput;
    assert xs[..i + 1][..i] == xs[..i];
  }

  // ---------------------------------------------------------------------
  // The algebraic query
  // ---------------------------------------------------------------------

  class AlgebraicQuery {
    var find: seq<FindMapping>
    var tables: seq<TableBinding>
    var joins: seq<Join>
    var filters: seq<Filter>
    var raws: seq<RawFilter>
    var nots: seq<Body>

    constructor (aq: Algebraic)
      ensures Contents() == aq
    {
      find, tables, joins, filters, raws, nots := aq.find, aq.body.tables, aq.body.joins, aq.body.filters, aq.raws,
        aq.nots;
    }

    function Contents(): Algebraic
      reads this
    {
      Algebraic(find, Body(tables, joins, filters), raws, nots)
    }

    /** A value for a table: encoded unless the column is typed. */
    method EncodeInput(v: Value, t: Option<ValueType>) returns (r: Result<Value, InputError>)
      ensures r == ColumnInput(v, t)
    {
      if t.Some? && TypedColumnOf(t.value).Some? {
        return Ok(v);
      }
      if t.None? {
        return Err(BadInput);
      }
      var b := EncodeValue(v, t.value);
      return if b.Ok? then Ok(VBytes(b.value)) else Err(BadInput);
    }

    /** Into the first table with the variable: value, then entity, then transaction. */
    method BindInTables(x: Var, v: Value) returns (found: bool, r: Result<(), InputError>)
      modifies this`tables
      ensures found <==> TableWithInput(old(tables), x, 0).Some?
      ensures !found ==> tables == old(tables) && r == Ok(())
      ensures found ==> var t := TableWithInput(old(tables), x, 0).value;
                match BindTable(old(tables)[t], x, v)
                case Ok(tb) => r == Ok(()) && tables == old(tables)[t := tb]
                case Err(err) => r == Err(err)
    {
      var i := 0;
      while i < |tables|
        invariant i <= |tables| && tables == old(tables)
        invariant TableWithInput(tables, x, 0) == TableWithInput(tables, x, i)
      {
        var tb := tables[i];
        if tb.pattern.v == EVar(x) {
          var w := EncodeInput(v, tb.valueType);
          if w.Err? {
            return true, Err(w.error);
          }
          tables := tables[i := tb.(vBound := w.value)];
          return true, Ok(());
        }
        if tb.pattern.e == EVar(x) {
          tables := tables[i := tb.(eBound := v)];
          return true, Ok(());
        }
        if tb.pattern.tx == EVar(x) {
          tables := tables[i := tb.(txBound := v)];
          return true, Ok(());
        }
        i := i + 1;
      }
      return false, Ok(());
    }

    /** The type of the argument itself, or of the first typed one beside it. */
    method TypeForInput(a: FilterArg, args: seq<FilterArg>) returns (t: Option<ValueType>)
      ensures t == if a.valueType.Some? then a.valueType else FirstType(args)
    {
      t := a.valueType;
      var i := 0;
      while i < |args| && t.None?
        invariant i <= |args|
        invariant a.valueType.Some? ==> t == a.valueType
        invariant a.valueType.None? ==> FirstType(args) == if t.Some? then t else FirstType(args[i..])
      {
        assert args[i..][1..] == args[i + 1..];
        t := args[i].valueType;
        i := i + 1;
      }
    }

    /** Into the first filter argument that refers to the input. */
    method BindInFilters(x: Var, v: Value) returns (found: bool, r: Result<(), InputError>)
      modifies this`filters
      ensures found <==> FilterWithInput(old(filters), x, 0).Some?
      ensures !found ==> filters == old(filters) && r == Ok(())
      ensures found ==> var i := FilterWithInput(old(filters), x, 0).value; var args := old(filters)[i].args; var j :=
              ArgWithInput(args, x, 0).value;
                match FilterInput(args[j], args, v)
                case Ok(a) => r == Ok(()) && filters == old(filters)[i := old(filters)[i].(args := args[j := a])]
                case Err(err) => r == Err(err)
    {
      var i := 0;
      while i < |filters|
        invariant i <= |filters| && filters == old(filters)
        invariant FilterWithInput(filters, x, 0) == FilterWithInput(filters, x, i)
      {
        var args, j := filters[i].args, 0;
        while j < |args|
          invariant j <= |args| && filters == old(filters)
          invariant ArgWithInput(args, x, 0) == ArgWithInput(args, x, j)
        {
          var a := args[j];
          if IsInput(a, x) {
            var t := TypeForInput(a, args);
            var w := v;
            if t.Some? && TypedColumnOf(t.value).None? {
              var b := EncodeValue(v, t.value);
              if b.Err? {
                return true, Err(BadInput);
              }
              w := VBytes(b.value);
            }
            filters := filters[i := filters[i].(args := args[j := FConst(w, a.valueType)])];
            return true, Ok(());
          }
          j := j + 1;
        }
        i := i + 1;
      }
      return false, Ok(());
    }

    /** bindInputArgs. When it fails, the query is discarded. */
    method BindInputArgs(xs: seq<Var>, vs: seq<Value>) returns (r: Result<(), InputError>)
      modifies this`tables, this`filters
      ensures match BindAll(old(Contents()), xs, vs)
              case Ok(aq) => r == Ok(()) && Contents() == aq
              case Err(err) => r == Err(err)
    {
      hide TableWithInput, BindTable, FilterWithInput, ArgWithInput, FilterInput;
      if |vs| < |xs| {
        return Err(TooFewArgs);
      }
      ghost var b0 := Contents().body;
      assert xs[..0] == [];
      for i := 0 to |xs|
        invariant BindInputs(b0, xs[..i], vs) == Ok(Contents().body)
        invariant Contents() == old(Contents()).(body := Contents().body)
      {
        InputsSnoc(b0, xs, vs, i);
        var found, e := BindInTables(xs[i], vs[i]);
        if !found {
          found, e := BindInFilters(xs[i], vs[i]);
        }
        if !found {
          FirstErrorWins(b0, xs, vs, i);
          return Err(InputNotFound);
        }
        if e.Err? {
          FirstErrorWins(b0, xs, vs, i);
          return Err(e.error);
        }
      }
      assert xs[..|xs|] == xs;
      r := Ok(());
    }

    method PointAtLog()
      modifies this`tables
      ensures tables == OnLog(old(tables))
    {
      ghost var was := tables;
      for i := 0 to |tables|
        invariant |tables| == |was|
                  && forall k :: 0 <= k < |was| ==> tables[k] == if k < i then was[k].(table := DatomsLog) else was[k]
      {
        tables := tables[i := tables[i].(table := DatomsLog)];
      }
    }

    method AddConditions(view: View)
      modifies this`filters, this`raws
      ensures filters == old(filters) + AddedFilters(|tables|, view) && raws == old(raws) + AddedRaws(tables, view)
    {
      hide FiltersAt, RawsAt;
      for i := 0 to |tables|
        invariant filters == old(filters) + AddedFilters(i, view)
        invariant raws == old(raws) + AddedRaws(tables[..i], view)
      {
        var f, r := ViewConditions(i, tables[i].alias, view);
        filters, raws := filters + f, raws + r;
        assert tables[..i + 1][..i] == tables[..i];
      }
      assert tables[..|tables|] == tables;
    }

    lemma {:induction false} SameAliases(tbs: seq<TableBinding>, view: View)
      ensures AddedRaws(OnLog(tbs), view) == AddedRaws(tbs, view)
    {
      if tbs != [] {
        SameAliases(tbs[..|tbs| - 1], view);
        hide RawsAt;
        assert OnLog(tbs)[..|tbs| - 1] == OnLog(tbs[..|tbs| - 1]);
      }
    }

    /** applyAsOf: the tables read the log, and filters and raw filters are added table by
        table. */
    method ApplyView(view: View)
      modifies this
      ensures Contents() == ApplyAsOf(old(Contents()), view)
    {
      SameAliases(tables, view);
      hide OnLog, AddedFilters, AddedRaws;
      PointAtLog();
      AddConditions(view);
    }

    /** The conditions for one table. */
    method ViewConditions(i: int, alias: Alias, view: View) returns (f: seq<Filter>, raws: seq<RawFilter>)
      ensures f == FiltersAt(i, view) && raws == RawsAt(alias, view)
    {
      f, raws := [ColumnFilter([61], i, ColAdded, VInt(1))], [];
      if view.txID > 0 {
        f := f + [ColumnFilter([60, 61], i, ColTx, VInt(view.txID))];
        raws := raws + [NoRetraction(alias, view.txID)];
      }
      if view.validTime.Some? {
        f := f + [ColumnFilter([60, 61], i, ColValidFrom, VInt(view.validTime.value))];
        raws := raws + [StillValid(alias, view.validTime.value)];
      }
      hide ColumnFilter, NoRetraction, StillValid;
    }
  }

  // ---------------------------------------------------------------------
  // encodeParams
  // ---------------------------------------------------------------------

  predicate BoundEncodes(tb: TableBinding) {
    tb.vBound != VNil && tb.valueType == Some(TBytes) ==> tb.vBound.VBytes?
  }

  predicate ArgEncodes(a: FilterArg) {
    a.FConst? && a.valueType == Some(TBytes) ==> a.c.VBytes?
  }

  /** Every constant compared with a column of bytes is bytes. */
  ghost predicate Encodes(tbs: seq<TableBinding>, fs: seq<Filter>) {
    && (forall tb :: tb in tbs ==> BoundEncodes(tb))
    && (forall f, a :: f in fs && a in f.args ==> ArgEncodes(a))
  }

  /** The slots of a table's parameters, and where the value's is. */
  lemma {:induction false} TableSlots(tb: TableBinding)
    ensures var k := (if tb.attrID != 0 then 1 else 0) + (if tb.eBound != VNil then 1 else 0);
            && |TableParams(tb)| == k + (if tb.vBound != VNil then 1 else 0) + (if tb.txBound != VNil then 1 else 0)
            && (tb.vBound != VNil ==> TableParams(tb)[k] == tb.vBound)
  {
    hide IdValue;
  }

  lemma {:induction false} TablesSlots(tbs: seq<TableBinding>, i: nat)
    requires i < |tbs|
    ensures TablesParams(tbs[..i]) + TableParams(tbs[i]) == TablesParams(tbs[..i + 1])
    ensures TablesParams(tbs[..i + 1]) <= TablesParams(tbs)
    decreases |tbs|
  {
    hide TableParams;
    assert tbs[..i + 1][..i] == tbs[..i];
    if i < |tbs| - 1 {
      assert tbs[..|tbs| - 1][..i] == tbs[..i] && tbs[..|tbs| - 1][..i + 1] == tbs[..i + 1];
      TablesSlots(tbs[..|tbs| - 1], i);
    } else {
      assert tbs[..i + 1] == tbs;
    }
  }

  lemma {:induction false} FiltersSlots(fs: seq<Filter>, i: nat)
    requires i < |fs|
    ensures FiltersParams(fs[..i]) + ArgParams(fs[i].args) == FiltersParams(fs[..i + 1])
    ensures FiltersParams(fs[..i + 1]) <= FiltersParams(fs)
    decreases |fs|
  {
    hide ArgParams;
    assert fs[..i + 1][..i] == fs[..i];
    if i < |fs| - 1 {
      assert fs[..|fs| - 1][..i] == fs[..i] && fs[..|fs| - 1][..i + 1] == fs[..i + 1];
      FiltersSlots(fs[..|fs| - 1], i);
    } else {
      assert fs[..i + 1] == fs;
    }
  }

  /** From slot n on, the parameters are those of the part. */
  predicate HasAt(params: seq<Value>, n: nat, part: seq<Value>) {
    n + |part| <= |params| && forall k :: 0 <= k < |part| ==> params[n + k] == part[k]
  }

  lemma {:induction false} HasTail(params: seq<Value>, n: nat, v: Value, rest: seq<Value>)
    requires HasAt(params, n, [v] + rest)
    ensures n < |params| && params[n] == v && HasAt(params, n + 1, rest)
  {
    var part := [v] + rest;
    assert params[n + 0] == part[0];
    forall k | 0 <= k < |rest| ensures params[n + 1 + k] == rest[k] {
      assert params[n + (k + 1)] == part[k + 1];
    }
  }

  lemma {:induction false} HasPart(params: seq<Value>, n: nat, whole: seq<Value>, before: seq<Value>, part: seq<Value>)
    requires HasAt(params, n, whole) && before + part <= whole
    ensures HasAt(params, n + |before|, part)
  {
    forall k | 0 <= k < |part| ensures params[n + |before| + k] == part[k] {
      assert params[n + (|before| + k)] == whole[|before| + k] == (before + part)[|before| + k];
    }
  }

  lemma {:induction false} HasMiddle(a: seq<Value>, b: seq<Value>, c: seq<Value>)
    ensures HasAt(a + b + c, |a|, b)
  {
  }

  /** A compiled statement; its parameters are an array in the original. */
  class Statement {
    const query: SqlQuery
    var params: seq<Value>

    constructor (query: SqlQuery)
      ensures this.query == query && params == query.params
    {
      this.query := query;
      params := query.params;
    }

    /** One parameter is replaced by its encoding. */
    method EncodeSlot(n: nat, v: Value, t: ValueType) returns (r: Result<(), InputError>)
      requires n < |params|
      modifies this`params
      ensures match EncodeValue(v, t)
              case Ok(b) => r == Ok(()) && params == old(params)[n := VBytes(b)]
              case Err(_) => r == Err(BadInput) && params == old(params)
    {
      hide EncodeValue;
      var b := EncodeValue(v, t);
      if b.Err? {
        return Err(BadInput);
      }
      params := params[n := VBytes(b.value)];
      r := Ok(());
    }

    /** The tables' slots: n of them are walked over. */
    method EncodeTables(tbs: seq<TableBinding>) returns (n: nat, r: Result<(), InputError>)
      requires TablesParams(tbs) <= params
      modifies this`params
      ensures params == old(params)
      ensures r.Ok? <==> forall tb :: tb in tbs ==> BoundEncodes(tb)
      ensures r.Ok? ==> n == |TablesParams(tbs)|
    {
      hide TableParams, EncodeValue;
      n := 0;
      for i := 0 to |tbs|
        invariant params == old(params) && n == |TablesParams(tbs[..i])|
        invariant forall tb :: tb in tbs[..i] ==> BoundEncodes(tb)
      {
        var tb := tbs[i];
        TablesSlots(tbs, i);
        TableSlots(tb);
        if tb.attrID != 0 {
          n := n + 1;
        }
        if tb.eBound != VNil {
          n := n + 1;
        }
        if tb.vBound != VNil {
          if tb.valueType.Some? && TypedColumnOf(tb.valueType.value).None? && !tb.vBound.VBytes? {
            OnlyBytesEncode(tb.vBound, tb.valueType.value);
            assert tb in tbs;
            var e := EncodeSlot(n, tb.vBound, tb.valueType.value);
            if e.Err? {
              return n, e;
            }
          }
          n := n + 1;
        }
        if tb.txBound != VNil {
          n := n + 1;
        }
      }
      assert tbs[..|tbs|] == tbs;
      r := Ok(());
    }

    /** The slots of one filter's constants, from n on. */
    method EncodeArgs(args: seq<FilterArg>, n: nat) returns (m: nat, r: Result<(), InputError>)
      requires HasAt(params, n, ArgParams(args))
      modifies this`params
      ensures params == old(params)
      ensures r.Ok? <==> forall a :: a in args ==> ArgEncodes(a)
      ensures r.Ok? ==> m == n + |ArgParams(args)|
    {
      hide EncodeValue;
      m := n;
      for j := 0 to |args|
        invariant params == old(params) && HasAt(params, m, ArgParams(args[j..]))
        invariant m + |ArgParams(args[j..])| == n + |ArgParams(args)|
        invariant forall a :: a in args[..j] ==> ArgEncodes(a)
      {
        var a := args[j];
        assert args[j..][1..] == args[j + 1..];
        if a.FConst? {
          HasTail(params, m, a.c, ArgParams(args[j + 1..]));
          hide HasAt, ArgParams;
          if a.valueType.Some? && TypedColumnOf(a.valueType.value).None? {
            OnlyBytesEncode(a.c, a.valueType.value);
            assert a in args;
            var e := EncodeSlot(m, params[m], a.valueType.value);
            if e.Err? {
              return m, e;
            }
            assert params == old(params);
          }
          m := m + 1;
        } else {
          assert ArgParams(args[j..]) == ArgParams(args[j + 1..]);
        }
      }
      assert args[..|args|] == args;
      r := Ok(());
    }

    /** The slots of the filters' constants, from n on. */
    method EncodeFilters(fs: seq<Filter>, n: nat) returns (m: nat, r: Result<(), InputError>)
      requires HasAt(params, n, FiltersParams(fs))
      modifies this`params
      ensures params == old(params)
      ensures r.Ok? <==> forall f, a :: f in fs && a in f.args ==> ArgEncodes(a)
      ensures r.Ok? ==> m == n + |FiltersParams(fs)|
    {
      hide ArgParams, ArgEncodes, HasAt;
      m := n;
      for i := 0 to |fs|
        invariant params == old(params)
        invariant FiltersParams(fs[..i]) <= FiltersParams(fs) && m == n + |FiltersParams(fs[..i])|
        invariant forall f, a :: f in fs[..i] && a in f.args ==> ArgEncodes(a)
      {
        FiltersSlots(fs, i);
        HasPart(params, n, FiltersParams(fs), FiltersParams(fs[..i]), ArgParams(fs[i].args));
        var e: Result<(), InputError>;
        m, e := EncodeArgs(fs[i].args, m);
        if e.Err? {
          assert fs[i] in fs;
          return m, e;
        }
      }
      assert fs[..|fs|] == fs;
      r := Ok(());
    }

    /** encodeParams. For what Translate produced it walks exactly the slots of the table
        bindings and filter constants, and changes none: it only refuses a constant that
        is compared with a column of bytes and is not bytes. The walk ends behind the
        last filter constant, at end. */
    method EncodeParams(aq: Algebraic) returns (end: nat, r: Result<(), InputError>)
      requires params == Translated(aq).params
      modifies this`params
      ensures params == old(params)
      ensures r.Ok? <==> Encodes(aq.body.tables, aq.body.filters)
      ensures r.Ok? ==> end == |TablesParams(aq.body.tables)| + |FiltersParams(aq.body.filters)|
      ensures r.Ok? ==> params[..end] == BodyParams(aq.body)
    {
      hide TablesParams, FiltersParams, RawParams, NotsParams, BoundEncodes, ArgEncodes;
      var tp, fp := TablesParams(aq.body.tables), FiltersParams(aq.body.filters);
      assert params == tp + fp + (RawParams(aq.raws) + NotsParams(aq.nots));
      HasMiddle(tp, fp, RawParams(aq.raws) + NotsParams(aq.nots));
      var n, e := EncodeTables(aq.body.tables);
      if e.Err? {
        return n, e;
      }
      end, r := EncodeFilters(aq.body.filters, n);
      assert params[..|tp| + |fp|] == tp + fp;
    }
  }

  /** The only type without a typed column is that of bytes, which encode as they are. */
  lemma {:induction false} OnlyBytesEncode(v: Value, t: ValueType)
    requires TypedColumnOf(t).None?
    ensures t == TBytes && EncodeValue(v, t) == if v.VBytes? then Ok(v.bs) else Err(TypeMismatch)
  {
  }
}
