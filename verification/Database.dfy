/** The database handle: pool.go, attributes.go and transact.go as methods that
    update tables and counters in place, each proved against the functions of
    Transact. A method body stands for what runs under SQLite's write lock. */
module Database {
  import opened Prelude
  import opened Values
  import opened Store
  import opened Transact
  import opened Invariants
  import TempIDs
  import Outline

  method SelectMax(s: set<int>) returns (m: int)
    ensures m == MaxOr0(s)
  {
    if s == {} {
      m := 0;
    } else {
      assert IsMaxOr0(s, MaxOr0(s));
      m :| m in s && forall x :: x in s ==> x <= m;
    }
  }

  class SchemaCache {
    var byIdent: map<Bytes, Attribute>
    var byID: map<int, Attribute>

    ghost function Val(): Schema
      reads this
    {
      Schema(byIdent, byID)
    }

    constructor ()
      ensures Val() == Schema(map[], map[])
    {
      byIdent, byID := map[], map[];
    }

    method Put(attr: Attribute)
      modifies this
      ensures Val() == old(Val()).Put(attr)
    {
      byIdent := byIdent[attr.ident := attr];
      byID := byID[attr.id := attr];
    }
  }

  class DB {
    var datoms: seq<Row>
    var current: Current
    var transactions: map<int, int>
    var attributes: map<int, Attribute>
    const schema: SchemaCache
    var nextTx: int
    var nextEID: int

    ghost function TablesNow(): Tables
      reads this
    {
      Tables(datoms, current, transactions)
    }

    ghost function State(): DbState
      reads this, schema
    {
      DbState(TablesNow(), schema.Val(), nextTx, nextEID)
    }

    ghost predicate Valid()
      reads this, schema
    {
      StateValid(State()) && attributes == schema.byID
    }

    constructor ()
      ensures fresh(schema) && Valid() && IsView(TablesNow())
      ensures State() == DbState(Tables([], map[], map[]), Schema(map[], map[]), 1, 1)
    {
      datoms, current, transactions, attributes := [], map[], map[], map[];
      nextTx, nextEID := 1, 1;
      schema := new SchemaCache();
    }

    method AllocTxID() returns (id: int)
      requires Valid()
      modifies this`nextTx
      ensures Valid() && id == old(nextTx) && nextTx == id + 1 && id !in transactions
    {
      id := nextTx;
      nextTx := nextTx + 1;
    }

    method AllocEntityID() returns (id: int)
      modifies this`nextEID
      ensures id == old(nextEID) && nextEID == id + 1
    {
      id := nextEID;
      nextEID := nextEID + 1;
    }

    method LoadState()
      requires Valid()
      modifies this`nextTx, this`nextEID
      ensures Valid() && State() == Reload(old(State()))
      ensures if transactions == map[] then nextTx == 1 else nextTx - 1 in transactions
      ensures forall id :: id in transactions ==> id < nextTx
      ensures (forall f :: f in current ==> f.e < nextEID) && forall id :: id in attributes ==> id < nextEID
      ensures nextEID == 1 || nextEID - 1 in attributes || exists f :: f in current && f.e == nextEID - 1
    {
      ReloadKeeps(State());
      hide TablesValid;
      var maxTx := SelectMax(transactions.Keys);
      nextTx := maxTx + 1;
      var maxEntity := SelectMax(EntitiesOf(current));
      nextEID := maxEntity + 1;
      var maxAttr := SelectMax(attributes.Keys);
      if maxAttr >= nextEID {
        nextEID := maxAttr + 1;
      }
      // The source resets a counter that is 0 here (to 1 and to 1000). Neither ever is:
      // transaction ids are positive, and the greatest attribute id is not negative.
      assert nextTx != 0 && nextEID != 0;
    }

    /** AsOfTxTime: the latest transaction recorded at or before a time, if any. */
    method AsOfTxTime(time: int) returns (view: Option<int>)
      requires Valid()
      ensures view.None? <==> forall id :: id in transactions ==> transactions[id] > time
      ensures view.Some? ==> view.value in transactions && transactions[view.value] <= time
                             && forall id :: id in transactions && transactions[id] <= time ==> id <= view.value
    {
      var recorded := set id | id in transactions && transactions[id] <= time;
      assert forall id :: id in transactions && transactions[id] <= time ==> id in recorded;
      var m := SelectMax(recorded);
      assert recorded != {} ==> m in recorded && 1 <= m;
      view := if m == 0 then None else Some(m);
    }

    /** A new ident takes the next id and is stored as given; a known one is accepted when
        all six properties agree, and changes nothing. */
    method DefineAttribute(attr: Attribute) returns (r: Result<(), SchemaError>)
      requires Valid()
      modifies this, schema
      ensures Valid() && (State(), r) == Define(old(State()), attr)
      ensures attr.ident !in old(schema.byIdent) ==>
                && r == Ok(()) && nextEID == old(nextEID) + 1 && nextTx == old(nextTx)
                   && TablesNow() == old(TablesNow())
                && schema.byIdent.Keys == old(schema.byIdent).Keys + {attr.ident}
                && schema.byID.Keys == old(schema.byID).Keys + {old(nextEID)} && old(nextEID) !in old(schema.byID)
                && (forall i :: i in old(schema.byIdent) ==> schema.byIdent[i] == old(schema.byIdent)[i])
                && (forall k :: k in old(schema.byID) ==> schema.byID[k] == old(schema.byID)[k])
                && attributes == schema.byID && schema.byID[old(nextEID)] == schema.byIdent[attr.ident]
                && var x := schema.byIdent[attr.ident];
                && x.id == old(nextEID) && x.ident == attr.ident && x.valueType == attr.valueType
                && x.cardinality == attr.cardinality && x.indexed == attr.indexed && x.unique == attr.unique
                && x.identity == attr.identity && x.isComponent == attr.isComponent
      ensures attr.ident in old(schema.byIdent) ==>
                && State() == old(State()) && attributes == old(attributes)
                && (r.Ok? <==>
                    var x := old(schema.byIdent)[attr.ident];
                    && x.valueType == attr.valueType && x.cardinality == attr.cardinality && x.indexed == attr.indexed
                    && x.unique == attr.unique && x.identity == attr.identity && x.isComponent == attr.isComponent)
    {
      DefineKeeps(State(), attr);
      hide TablesValid;
      if attr.ident in schema.byIdent {
        r := if SameDefinition(schema.byIdent[attr.ident], attr) then Ok(()) else Err(DifferentDefinition);
        return;
      }
      var id := AllocEntityID();
      attributes := attributes[id := attr.(id := id)];
      schema.Put(attr.(id := id));
      r := Ok(());
    }

    // -------------------------------------------------------------------
    // Statements of a transaction
    // -------------------------------------------------------------------

    method LookupHolder(a: int, v: Bytes, exclude: int) returns (e: Option<int>)
      requires schema.Val().Valid() && IdentityHolds(schema.Val(), current)
      requires a in schema.byID && schema.byID[a].identity
      ensures e == LookupEntity(current, a, v, exclude)
    {
      if f :| f in current && f.a == a && f.v == v && f.e != exclude {
        e := Some(f.e);
        assert Holds(current, a, v, exclude, f.e);
      } else {
        e := None;
      }
    }

    method ResolveRef(ident: Bytes, v: Value) returns (r: Result<int, TxError>)
      requires schema.Val().Valid() && IdentityHolds(schema.Val(), current)
      ensures r == ResolveLookupRef(schema.Val(), current, ident, v)
    {
      if ident !in schema.byIdent {
        return Err(UnknownAttribute);
      }
      var attr := schema.byIdent[ident];
      if !attr.identity {
        return Err(NotIdentity);
      }
      var enc := EncodeValue(v, attr.valueType);
      if enc.Err? {
        return Err(EncodeFailed);
      }
      var e := LookupHolder(attr.id, enc.value, 0);
      r := if e.None? then Err(NoSuchEntity) else Ok(e.value);
    }

    /** The upsert pass: resolves the TempIDs that assert Identity values. */
    method ResolveTempIDs(batch: seq<TxDatom>)
                          returns (tempids: map<Bytes, int>, pending: map<Key, int>, err: Option<TxError>)
      requires schema.Val().Valid() && IdentityHolds(schema.Val(), current)
      modifies this`nextEID
      ensures var r := FirstPass(old(State()), batch);
              && nextEID == r.s.nextEID
              && (r.Next? ==> err.None? && r.s == Upsert(tempids, pending, nextEID))
              && (r.Stop? ==> err == Some(r.err))
    {
      tempids, pending, err := map[], map[], None;
      ghost var u0 := Upsert(map[], map[], nextEID);
      for i := 0 to |batch|
        invariant UpsertAll(schema.Val(), current, u0, batch)
               == UpsertAll(schema.Val(), current, Upsert(tempids, pending, nextEID), batch[i..])
        invariant err.None?
      {
        var td := batch[i];
        assert batch[i..][0] == td && batch[i..][1..] == batch[i + 1..];
        if td.e.ETemp? && !td.retract && td.a in schema.byIdent && schema.byIdent[td.a].identity {
          var attr := schema.byIdent[td.a];
          var enc := EncodeValue(td.v, attr.valueType);
          if enc.Err? {
            err := Some(EncodeFailed);
            return;
          }
          var key, t := Key(attr.id, enc.value), td.e.name;
          if key !in pending {
            var eid: int;
            var found := LookupHolder(attr.id, enc.value, 0);
            if found.Some? {
              eid := found.value;
            } else if t in tempids {
              eid := tempids[t];
            } else {
              eid := AllocEntityID();
            }
            pending := pending[key := eid];
          }
          if t in tempids && tempids[t] != pending[key] {
            err := Some(TempIDConflict);
            return;
          }
          tempids := tempids[t := pending[key]];
        }
      }
    }

    method InsertDatom(r: Row) returns (ok: bool)
      modifies this`datoms
      ensures ok == !Duplicates(old(datoms), r)
      ensures datoms == if ok then old(datoms) + [r] else old(datoms)
    {
      ok := !Duplicates(datoms, r);
      if ok {
        datoms := datoms + [r];
      }
    }

    /** What the tables and the reported datoms are after a step that began at b. */
    ghost predicate Matches(b: Batch, r: Fold<Batch>, err: Option<TxError>, out: seq<Datom>)
      reads this
    {
      && r.s == b.(tables := TablesNow(), produced := b.produced + out)
      && err == (if r.Next? then None else Some(r.err))
    }

    method RetractDatom(c: Context, ghost b: Batch, attr: Attribute, f: Fact, v: Value)
                        returns (err: Option<TxError>, out: seq<Datom>)
      requires b.tables == TablesNow() && attr.id == f.a
      modifies this`datoms, this`current
      ensures Matches(b, Retract(c, b, attr, f, v), err, out)
    {
      current := current - {f};
      var ok := InsertDatom(RowFor(c, attr, f, v, false));
      if ok {
        err, out := None, [Datom(f.e, attr.id, v, c.tx, false)];
      } else {
        err, out := Some(DuplicateRetraction(f)), [];
      }
    }

    /** CardOne: logs the retraction of the value in force, if any, and deletes it. */
    method ReplaceExisting(c: Context, ghost b: Batch, attr: Attribute, e: int)
                           returns (err: Option<TxError>, out: seq<Datom>)
      requires b.tables == TablesNow() && CardOneHolds(c.schema, current)
      requires attr.id in c.schema.byID && c.schema.byID[attr.id].cardinality == CardOne
      modifies this`datoms, this`current
      ensures Matches(b, Replace(c, b, attr, e), err, out)
    {
      if f :| f in current && f.e == e && f.a == attr.id {
        assert ValueIs(current, e, attr.id, f.v);
        assert Replace(c, b, attr, e) == ReplaceValue(c, b, attr, f);
        var old_ := DecodeOrNil(f.v, attr.valueType);
        var ok := InsertDatom(RowFor(c, attr, f, old_, false));
        if ok {
          current := DeleteEA(current, e, attr.id);
          err, out := None, [Datom(e, attr.id, old_, c.tx, false)];
        } else {
          err, out := Some(DuplicateReplacement(f)), [];
        }
      } else {
        err, out := None, [];
      }
    }

    method InsertAssertion(c: Context, ghost b: Batch, attr: Attribute, f: Fact, v: Value)
                           returns (err: Option<TxError>, out: seq<Datom>)
      requires b.tables == TablesNow() && attr.id == f.a
      modifies this`datoms, this`current
      ensures Matches(b, Insert(c, b, attr, f, v), err, out)
    {
      var row := RowFor(c, attr, f, v, true);
      var ok := InsertDatom(row);
      if ok {
        current := current[f := CellOf(row)];
        err, out := None, [Datom(f.e, attr.id, v, c.tx, true)];
      } else {
        err, out := Some(DuplicateAssertion(f)), [];
      }
    }

    method AssertDatom(c: Context, ghost b: Batch, attr: Attribute, f: Fact, v: Value)
                       returns (err: Option<TxError>, out: seq<Datom>)
      requires b.tables == TablesNow() && c.schema == schema.Val() && c.schema.Valid()
               && IdentityHolds(c.schema, current) && CardOneHolds(c.schema, current)
      requires f.a in c.schema.byID && c.schema.byID[f.a] == attr && attr.id == f.a
      modifies this`datoms, this`current
      ensures Matches(b, Assert(c, b, attr, f, v), err, out)
    {
      hide  Schema.Valid, IdentityHolds, CardOneHolds, Replace, LookupEntity, Insert;
      var other := None;
      if attr.identity {
        other := LookupHolder(attr.id, f.v, f.e);
      }
      if other.Some? {
        err, out := Some(IdentityHeld), [];
      } else if attr.cardinality == CardOne {
        err, out := ReplaceExisting(c, b, attr, f.e);
        if err.None? {
          var more: seq<Datom>;
          err, more := InsertAssertion(c, Replace(c, b, attr, f.e).s, attr, f, v);
          assert b.produced + (out + more) == (b.produced + out) + more;
          out := out + more;
        }
      } else {
        err, out := InsertAssertion(c, b, attr, f, v);
      }
    }

    method ResolveEntityOf(c: Context, ghost b: Batch, e: Entity, tempids: map<Bytes, int>)
      returns (r: Result<int, TxError>, tempids': map<Bytes, int>)
      requires b.tables == TablesNow() && b.tempids == tempids && b.nextEID == nextEID
      requires c.schema == schema.Val() && c.schema.Valid() && IdentityHolds(c.schema, current)
      modifies this`nextEID
      ensures var x := ResolveEntity(c, b, e);
              && (x.Ok? ==> r == Ok(x.value.0) && x.value.1 == b.(tempids := tempids', nextEID := nextEID))
              && (x.Err? ==> r == Err(x.error) && nextEID == old(nextEID) && tempids' == tempids)
    {
      tempids' := tempids;
      match e {
        case ETemp(t) =>
          if t !in tempids {
            var id := AllocEntityID();
            tempids' := tempids[t := id];
          }
          r := Ok(tempids'[t]);
        case EId(id) =>
          r := Ok(id);
        case ELookup(ident, v) =>
          r := ResolveRef(ident, v);
        case EOther =>
          r := Err(UnsupportedEntity);
      }
    }

    // -------------------------------------------------------------------
    // Transactions
    // -------------------------------------------------------------------

    /** The datom loop. The invariant: what is left to do from the tables as they are
        now is what was to be done from the start. */
    method RunBatch(c: Context, batch: seq<TxDatom>, tempids: map<Bytes, int>)
      returns (err: Option<TxError>, tempids': map<Bytes, int>, produced: seq<Datom>)
      requires c.schema == schema.Val()
      requires Working(c, Batch(TablesNow(), tempids, {}, nextEID, []))
      modifies this`datoms, this`current, this`nextEID
      ensures var r := RunAll(c, old(Batch(TablesNow(), tempids, {}, nextEID, [])), batch);
              && TablesNow() == r.s.tables && nextEID == r.s.nextEID
              && err == (if r.Next? then None else Some(r.err))
              && (r.Next? ==> tempids' == r.s.tempids && produced == r.s.produced)
    {
      hide TablesValid, OwnRows, Grown, ViewKept, Retract, Assert, Schema.Valid, IdentityHolds, CardOneHolds;
      err, tempids', produced := None, tempids, [];
      ghost var b0 := Batch(TablesNow(), tempids, {}, nextEID, []);
      var seen: set<DatomKey> := {};
      for i := 0 to |batch|
        invariant err.None? && c.schema == schema.Val()
        invariant Working(c, Batch(TablesNow(), tempids', seen, nextEID, produced))
        invariant RunAll(c, b0, batch) == RunAll(c, Batch(TablesNow(), tempids', seen, nextEID, produced), batch[i..])
      {
        ghost var b := Batch(TablesNow(), tempids', seen, nextEID, produced);
        var td := batch[i];
        assert batch[i..][0] == td && batch[i..][1..] == batch[i + 1..];
        StepKeeps(c, b, td);
        TablesValidGives(c.schema, b.tables, td.a);
        if td.a !in schema.byIdent {
          err := Some(UnknownAttribute);
          return;
        }
        var attr := schema.byIdent[td.a];
        var e: Result<int, TxError>;
        e, tempids' := ResolveEntityOf(c, b, td.e, tempids');
        if e.Err? {
          err := Some(e.error);
          return;
        }
        var enc := EncodeValue(td.v, attr.valueType);
        if enc.Err? {
          err := Some(EncodeFailed);
          return;
        }
        var f := Fact(e.value, attr.id, enc.value);
        var key := DatomKey(f, td.retract);
        if !(c.dedup && key in seen) {
          if c.dedup {
            seen := seen + {key};
          }
          ghost var b1 := Batch(TablesNow(), tempids', seen, nextEID, produced);
          var out: seq<Datom>;
          if td.retract {
            err, out := RetractDatom(c, b1, attr, f, td.v);
          } else {
            err, out := AssertDatom(c, b1, attr, f, td.v);
          }
          if err.Some? {
            return;
          }
          produced := produced + out;
        }
      }
    }

    /** The body of transact under the write lock, for an id taken earlier. */
    method CommitAs(tx: int, batch: seq<TxDatom>, txTime: int, validFrom: int) returns (r: Result<TxResult, TxError>)
      requires Valid() && 1 <= tx < nextTx
      modifies this`datoms, this`current, this`transactions, this`nextEID
      ensures Valid() && (State(), r) == Commit(old(State()), tx, batch, txTime, validFrom)
    {
      ghost var s := State();
      CommitKeeps(s, tx, batch, txTime, validFrom);
      StartsWorking(s, tx, batch, txTime, validFrom);
      TablesValidGives(s.schema, s.tables, []);
      hide TablesValid, FirstPass, RunAll, Working, GapIn, Schema.Valid, IdentityHolds, Reported, IsView;
      var tempids, pending, err := ResolveTempIDs(batch);
      if err.Some? {
        return Err(err.value);
      }
      if tx in transactions {
        return Err(DuplicateTx);
      }
      transactions := transactions[tx := txTime];
      var c := Context(Schema(schema.byIdent, schema.byID), tx, validFrom, pending != map[]);
      var produced: seq<Datom>;
      err, tempids, produced := RunBatch(c, batch, tempids);
      r := if err.Some? then Err(err.value) else Ok(TxResult(tx, txTime, tempids, produced));
    }

    /** Transact: takes the next id, then runs the batch. The log only grows, by rows of
        this transaction that are reported to the caller. Whether the batch succeeds, and
        whether current_datoms stays the view of the log, is what its outline says from
        the state before. */
    method Transact(batch: seq<TxDatom>, now: int, txTime: Option<int>, validTime: Option<int>)
                    returns (r: Result<TxResult, TxError>)
      requires Valid()
      modifies this
      ensures Valid()
      ensures old(datoms) <= datoms
      ensures r.Ok? ==> r.value.datoms == Reported(datoms[|old(datoms)|..])
      ensures var time := if txTime.Some? then txTime.value else now;
              var from := if validTime.Some? then validTime.value else time;
              && (State(), r) == Commit(old(State()).(nextTx := old(nextTx) + 1), old(nextTx), batch, time, from)
              && (forall i :: |old(datoms)| <= i < |datoms|
                    ==> datoms[i].tx == old(nextTx) && datoms[i].validFrom == from)
              && (r.Ok? ==> r.value.txID == old(nextTx) && r.value.txTime == time
                            && transactions == old(transactions)[old(nextTx) := time])
      ensures old(IsView(TablesNow())) ==> (IsView(TablesNow()) <==> !GapIn(old(nextTx), TablesNow(), r))
      ensures old(IsView(TablesNow()) && TempIDs.BelowCounter(current, nextEID)) ==>
                && (r.Ok? <==> Outline.OutlineOf(old(State()), batch).Goes?)
                && (IsView(TablesNow()) <==> !Outline.OutlineOf(old(State()), batch).Gaps?)
    {
      ghost var before := State();
      hide Commit, GapIn, Reported, IsView, TablesValid, Outline.OutlineOf, TempIDs.BelowCounter;
      var txID := AllocTxID();
      var time := if txTime.Some? then txTime.value else now;
      var from := if validTime.Some? then validTime.value else time;
      CommitKeeps(State(), txID, batch, time, from);
      CommitReports(State(), txID, batch, time, from);
      if IsView(before.tables) && TempIDs.BelowCounter(before.tables.current, before.nextEID) {
        Outline.OutcomeExactly(State(), txID, batch, time, from);
        assert Outline.OutlineOf(State(), batch)
          == Outline.OutlineOf(before, batch) by { Outline.AnyNextTx(before, batch, nextTx); }
      }
      r := CommitAs(txID, batch, time, from);
    }
  }

  lemma {:induction false} TablesValidGives(s: Schema, t: Tables, ident: Bytes)
    requires TablesValid(s, t)
    ensures s.Valid() && IdentityHolds(s, t.current) && CardOneHolds(s, t.current)
    ensures ident in s.byIdent ==> var attr := s.byIdent[ident]; attr.id in s.byID && s.byID[attr.id] == attr
  {
  }
}
