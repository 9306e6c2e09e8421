/** TempID resolution: which TempIDs of a batch end up on one entity. */
module TempIDs {
  import opened Prelude
  import opened Values
  import opened Store
  import opened Transact
  import Invariants

  /** What the first pass relates: TempIDs, Identity values, and the entities that
      already hold such values. */
  datatype Node = TempNode(t: Bytes) | KeyNode(k: Key) | HolderNode(e: int)

  /** The Identity value that a datom of the first pass asserts. */
  function KeyOf(s: Schema, td: TxDatom): Option<Key>
    requires Upserts(s, td)
  {
    match EncodeValue(td.v, s.byIdent[td.a].valueType)
    case Ok(b) => Some(Key(s.byIdent[td.a].id, b))
    case Err(_) => None
  }

  ghost predicate AssertsKey(s: Schema, batch: seq<TxDatom>, t: Bytes, k: Key) {
    exists td :: td in batch && Upserts(s, td) && td.e.name == t && KeyOf(s, td) == Some(k)
  }

  ghost predicate HeldBy(c: Current, k: Key, e: int) {
    LookupEntity(c, k.a, k.v, 0) == Some(e)
  }

  ghost predicate Edge(s: Schema, c: Current, batch: seq<TxDatom>, m: Node, n: Node) {
    match (m, n)
    case (TempNode(t), KeyNode(k)) => AssertsKey(s, batch, t, k)
    case (KeyNode(k), TempNode(t)) => AssertsKey(s, batch, t, k)
    case (KeyNode(k), HolderNode(e)) => HeldBy(c, k, e)
    case (HolderNode(e), KeyNode(k)) => HeldBy(c, k, e)
    case _ => false
  }

  /** n is reached from m in the given number of links. */
  ghost predicate Reach(s: Schema, c: Current, batch: seq<TxDatom>, steps: nat, m: Node, n: Node) {
    if steps == 0 then m == n
    else exists mid :: Reach(s, c, batch, steps - 1, m, mid) && Edge(s, c, batch, mid, n)
  }

  ghost predicate Linked(s: Schema, c: Current, batch: seq<TxDatom>, m: Node, n: Node) {
    exists steps: nat :: Reach(s, c, batch, steps, m, n)
  }

  /** A marking that agrees along every link. */
  ghost predicate Respects(s: Schema, c: Current, batch: seq<TxDatom>, mark: Node -> int) {
    forall m, n :: Edge(s, c, batch, m, n) ==> mark(m) == mark(n)
  }

  lemma {:induction false} ReachKeepsMark(s: Schema, c: Current, batch: seq<TxDatom>, steps: nat, m: Node, n: Node,
                                          mark: Node -> int)
    requires Respects(s, c, batch, mark) && Reach(s, c, batch, steps, m, n)
    ensures mark(m) == mark(n)
  {
    if steps > 0 {
      var mid :| Reach(s, c, batch, steps - 1, m, mid) && Edge(s, c, batch, mid, n);
      ReachKeepsMark(s, c, batch, steps - 1, m, mid, mark);
    }
  }

  /** Being linked to m is itself a marking that agrees along every link. */
  lemma {:induction false} LinkedRespects(s: Schema, c: Current, batch: seq<TxDatom>, m: Node)
                                          returns (mark: Node -> int)
    ensures Respects(s, c, batch, mark)
    ensures forall n :: mark(n) == 1 <==> Linked(s, c, batch, m, n)
    ensures mark(m) == 1
  {
    mark := LinkMark(s, c, batch, m);
    assert Reach(s, c, batch, 0, m, m);
    forall x, y | Edge(s, c, batch, x, y) ensures mark(x) == mark(y) {
      if Linked(s, c, batch, m, x) {
        LinkedStep(s, c, batch, m, x, y);
      }
      if Linked(s, c, batch, m, y) {
        LinkedStep(s, c, batch, m, y, x);
      }
    }
  }

  ghost function LinkMark(s: Schema, c: Current, batch: seq<TxDatom>, m: Node): Node -> int {
    n => if Linked(s, c, batch, m, n) then 1 else 0
  }

  lemma {:induction false} LinkedStep(s: Schema, c: Current, batch: seq<TxDatom>, m: Node, x: Node, y: Node)
    requires Linked(s, c, batch, m, x) && Edge(s, c, batch, x, y)
    ensures Linked(s, c, batch, m, y)
  {
    var steps: nat :| Reach(s, c, batch, steps, m, x);
    assert Reach(s, c, batch, steps + 1, m, y);
  }

  // ---------------------------------------------------------------------
  // The first pass
  // ---------------------------------------------------------------------

  /** No entity of the current state has an id that the counter will hand out. */
  ghost predicate BelowCounter(c: Current, next: int) {
    forall f :: f in c ==> f.e < next
  }

  ghost predicate Assigned(u: Upsert, n0: int, n: Node) {
    match n
    case TempNode(t) => t in u.tempids
    case KeyNode(k) => k in u.pending
    case HolderNode(e) => e < n0
  }

  function EntityOf(u: Upsert, n: Node): int {
    match n
    case TempNode(t) => if t in u.tempids then u.tempids[t] else -1
    case KeyNode(k) => if k in u.pending then u.pending[k] else -1
    case HolderNode(e) => e
  }

  /** Nodes on one entity carry one mark, and no entity is beyond the counter. */
  ghost predicate Coherent(u: Upsert, n0: int, mark: Node -> int) {
    && n0 <= u.nextEID
    && (forall n :: Assigned(u, n0, n) ==> EntityOf(u, n) < u.nextEID)
    && (forall m, n :: Assigned(u, n0, m) && Assigned(u, n0, n) && EntityOf(u, m) == EntityOf(u, n)
          ==> mark(m) == mark(n))
  }

  ghost predicate Grows(u: Upsert, u': Upsert) {
    && (forall t :: t in u.tempids ==> t in u'.tempids && u'.tempids[t] == u.tempids[t])
    && (forall k :: k in u.pending ==> k in u'.pending && u'.pending[k] == u.pending[k])
  }

  ghost predicate HoldersKept(c: Current, u: Upsert) {
    forall k, e :: k in u.pending && HeldBy(c, k, e) ==> u.pending[k] == e
  }

  lemma {:induction false} PrepareCoherent(c: Current, u: Upsert, t: Bytes, k: Key, n0: int, mark: Node -> int)
    requires Coherent(u, n0, mark) && BelowCounter(c, n0) && HoldersKept(c, u)
    requires mark(TempNode(t)) == mark(KeyNode(k))
    requires forall e :: HeldBy(c, k, e) ==> mark(KeyNode(k)) == mark(HolderNode(e))
    ensures var u1 := Prepare(c, u, t, k);
            && Grows(u, u1) && HoldersKept(c, u1) && k in u1.pending && u1.tempids == u.tempids
            && Coherent(u1, n0, mark)
            && (forall n :: Assigned(u1, n0, n) && EntityOf(u1, n) == u1.pending[k] ==> mark(n) == mark(KeyNode(k)))
  {
    var u1 := Prepare(c, u, t, k);
    if k in u.pending {
      assert Assigned(u, n0, KeyNode(k));
    } else {
      assert LookupEntity(c, k.a, k.v, 0).Some? ==> HeldBy(c, k, LookupEntity(c, k.a, k.v, 0).value);
      hide LookupEntity;
      NewKey(c, u, t, k, n0, mark);
      forall m, n | Assigned(u1, n0, m) && Assigned(u1, n0, n) && EntityOf(u1, m) == EntityOf(u1, n)
        ensures mark(m) == mark(n)
      {
        assert m != KeyNode(k) ==> Assigned(u, n0, m) && EntityOf(u, m) == EntityOf(u1, m);
        assert n != KeyNode(k) ==> Assigned(u, n0, n) && EntityOf(u, n) == EntityOf(u1, n);
      }
      forall n | Assigned(u1, n0, n) ensures EntityOf(u1, n) < u1.nextEID {
        assert n != KeyNode(k) ==> Assigned(u, n0, n) && EntityOf(u, n) == EntityOf(u1, n);
      }
    }
  }

  lemma {:induction false} NewKey(c: Current, u: Upsert, t: Bytes, k: Key, n0: int, mark: Node -> int)
    requires Coherent(u, n0, mark) && BelowCounter(c, n0) && k !in u.pending
    requires mark(TempNode(t)) == mark(KeyNode(k))
    requires forall e :: HeldBy(c, k, e) ==> mark(KeyNode(k)) == mark(HolderNode(e))
    ensures var u1 := Prepare(c, u, t, k);
            && k in u1.pending && u1.pending[k] < u1.nextEID
            && (forall n :: Assigned(u1, n0, n) && EntityOf(u1, n) == u1.pending[k] ==> mark(n) == mark(KeyNode(k)))
  {
    var u1 := Prepare(c, u, t, k);
    match LookupEntity(c, k.a, k.v, 0) {
      case Some(e) =>
        assert HeldBy(c, k, e) && Holds(c, k.a, k.v, 0, e);
        assert Assigned(u, n0, HolderNode(e));
      case None =>
        assert t in u.tempids ==> Assigned(u, n0, TempNode(t));
    }
    forall n | Assigned(u1, n0, n) && EntityOf(u1, n) == u1.pending[k] ensures mark(n) == mark(KeyNode(k)) {
      if n != KeyNode(k) {
        assert Assigned(u, n0, n) && EntityOf(u, n) == EntityOf(u1, n) < u.nextEID;
      }
    }
  }

  lemma {:induction false} StepCoherent(s: Schema, c: Current, u: Upsert, td: TxDatom, n0: int, mark: Node -> int)
    requires Coherent(u, n0, mark) && BelowCounter(c, n0) && HoldersKept(c, u)
    requires forall t, k :: AssertsKey(s, [td], t, k) ==> mark(TempNode(t)) == mark(KeyNode(k))
    requires forall k, e :: HeldBy(c, k, e) ==> mark(KeyNode(k)) == mark(HolderNode(e))
    requires UpsertDatom(s, c, u, td).Next?
    ensures var u' := UpsertDatom(s, c, u, td).s;
            && Grows(u, u') && HoldersKept(c, u') && Coherent(u', n0, mark)
            && (Upserts(s, td) ==> KeyOf(s, td).Some? && KeyOf(s, td).value in u'.pending && td.e.name in u'.tempids
                                   && u'.tempids[td.e.name] == u'.pending[KeyOf(s, td).value])
            && (forall t :: t in u'.tempids ==> t in u.tempids || (Upserts(s, td) && td.e.name == t))
  {
    if Upserts(s, td) {
      var t, k := td.e.name, KeyOf(s, td).value;
      assert td in [td] && AssertsKey(s, [td], t, k);
      PrepareCoherent(c, u, t, k, n0, mark);
      var u1 := Prepare(c, u, t, k);
      var u' := u1.(tempids := u1.tempids[t := u1.pending[k]]);
      HoldersKeptSame(c, u1, u');
      hide Prepare, HeldBy, AssertsKey, HoldersKept, BelowCounter;
      assert Assigned(u1, n0, KeyNode(k)) && EntityOf(u1, KeyNode(k)) == u1.pending[k];
      forall m | Assigned(u', n0, m)
        ensures EntityOf(u', m) < u'.nextEID
        ensures m != TempNode(t) ==> Assigned(u1, n0, m) && EntityOf(u1, m) == EntityOf(u', m)
      {
        if m == TempNode(t) {
          assert EntityOf(u', m) == EntityOf(u1, KeyNode(k)) < u1.nextEID;
        } else {
          assert Assigned(u1, n0, m);
        }
      }
    }
  }

  lemma {:induction false} HoldersKeptSame(c: Current, u1: Upsert, u': Upsert)
    requires HoldersKept(c, u1) && u'.pending == u1.pending
    ensures HoldersKept(c, u')
  {
  }

  ghost predicate Resolved(s: Schema, u: Upsert, td: TxDatom) {
    Upserts(s, td) ==>
      && KeyOf(s, td).Some? && KeyOf(s, td).value in u.pending && td.e.name in u.tempids
      && u.tempids[td.e.name] == u.pending[KeyOf(s, td).value]
  }

  ghost predicate Named(s: Schema, batch: seq<TxDatom>, t: Bytes) {
    exists td :: td in batch && Upserts(s, td) && td.e.name == t
  }

  ghost predicate MarksKeys(s: Schema, batch: seq<TxDatom>, mark: Node -> int) {
    forall t, k :: AssertsKey(s, batch, t, k) ==> mark(TempNode(t)) == mark(KeyNode(k))
  }

  ghost predicate MarksHolders(c: Current, mark: Node -> int) {
    forall k, e :: HeldBy(c, k, e) ==> mark(KeyNode(k)) == mark(HolderNode(e))
  }

  lemma {:induction false} PartOfBatch(s: Schema, batch: seq<TxDatom>, part: seq<TxDatom>, mark: Node -> int)
    requires MarksKeys(s, batch, mark) && forall td :: td in part ==> td in batch
    ensures MarksKeys(s, part, mark)
  {
    forall t, k | AssertsKey(s, part, t, k) ensures AssertsKey(s, batch, t, k) {
    }
  }

  lemma {:induction false} FirstPassCoherent(s: Schema, c: Current, u: Upsert, batch: seq<TxDatom>, n0: int,
                                             mark: Node -> int)
    requires Coherent(u, n0, mark) && BelowCounter(c, n0) && HoldersKept(c, u)
    requires MarksKeys(s, batch, mark) && MarksHolders(c, mark)
    requires UpsertAll(s, c, u, batch).Next?
    ensures var u' := UpsertAll(s, c, u, batch).s;
            && Grows(u, u') && HoldersKept(c, u') && Coherent(u', n0, mark)
            && (forall td :: td in batch ==> Resolved(s, u', td))
            && (forall t :: t in u'.tempids ==> t in u.tempids || Named(s, batch, t))
    decreases |batch|
  {
    if batch != [] {
      var td, rest := batch[0], batch[1..];
      PartOfBatch(s, batch, [td], mark);
      PartOfBatch(s, batch, rest, mark);
      StepCoherent(s, c, u, td, n0, mark);
      var u1 := UpsertDatom(s, c, u, td).s;
      hide UpsertDatom, Coherent, HoldersKept, MarksKeys, MarksHolders, KeyOf, BelowCounter;
      FirstPassCoherent(s, c, u1, rest, n0, mark);
      assert forall x :: x in batch ==> x == td || x in rest;
      var u' := UpsertAll(s, c, u1, rest).s;
      forall t | t in u'.tempids ensures t in u.tempids || Named(s, batch, t) {
        if t in u1.tempids && t !in u.tempids {
          assert td in batch;
        } else if Named(s, rest, t) {
          var x :| x in rest && Upserts(s, x) && x.e.name == t;
          assert x in batch;
        }
      }
    }
  }

  // ---------------------------------------------------------------------
  // The second pass
  // ---------------------------------------------------------------------

  /** TempIDs new in b' each have an entity of their own, fresh from the counter. */
  ghost predicate FreshOnly(tempids: map<Bytes, int>, next: int, b': Batch) {
    && next <= b'.nextEID
    && (forall t :: t in tempids ==> t in b'.tempids && b'.tempids[t] == tempids[t])
    && (forall t :: t in b'.tempids && t !in tempids ==> next <= b'.tempids[t] < b'.nextEID)
    && (forall t, t' :: t in b'.tempids && t' in b'.tempids && t !in tempids && t' !in tempids && t != t'
          ==> b'.tempids[t] != b'.tempids[t'])
  }

  lemma {:induction false} FreshTrans(tempids: map<Bytes, int>, next: int, b1: Batch, b2: Batch)
    requires FreshOnly(tempids, next, b1) && FreshOnly(b1.tempids, b1.nextEID, b2)
    ensures FreshOnly(tempids, next, b2)
  {
    forall t | t in b2.tempids && t !in tempids
      ensures next <= b2.tempids[t] < b2.nextEID
      ensures t in b1.tempids ==> b2.tempids[t] < b1.nextEID
      ensures t !in b1.tempids ==> b1.nextEID <= b2.tempids[t]
    {
    }
  }

  lemma {:induction false} AdmitLeavesTempIDs(c: Context, b: Batch, attr: Attribute, f: Fact, td: TxDatom)
    ensures var r := Admit(c, b, attr, f, td); r.s.tempids == b.tempids && r.s.nextEID == b.nextEID
  {
    hide LookupEntity, Duplicates, RowFor, DeleteEA, DecodeOrNil;
  }

  lemma {:induction false} StepFresh(c: Context, b: Batch, td: TxDatom)
    requires StepDatom(c, b, td).Next?
    ensures var r := StepDatom(c, b, td);
            && FreshOnly(b.tempids, b.nextEID, r.s)
            && (td.e.ETemp? ==> td.e.name in r.s.tempids)
  {
    hide Admit, EncodeValue, ResolveLookupRef;
    var attr := c.schema.byIdent[td.a];
    var (e, b1) := ResolveEntity(c, b, td.e).value;
    AdmitLeavesTempIDs(c, b1, attr, Fact(e, attr.id, EncodeValue(td.v, attr.valueType).value), td);
  }

  lemma {:induction false} RunFresh(c: Context, b: Batch, batch: seq<TxDatom>)
    requires RunAll(c, b, batch).Next?
    ensures var r := RunAll(c, b, batch);
            && FreshOnly(b.tempids, b.nextEID, r.s)
            && (forall td :: td in batch && td.e.ETemp? ==> td.e.name in r.s.tempids)
    decreases |batch|
  {
    if batch != [] {
      StepFresh(c, b, batch[0]);
      hide StepDatom;
      var b1 := StepDatom(c, b, batch[0]).s;
      RunFresh(c, b1, batch[1..]);
      FreshTrans(b.tempids, b.nextEID, b1, RunAll(c, b1, batch[1..]).s);
      assert forall x :: x in batch ==> x == batch[0] || x in batch[1..];
    }
  }

  // ---------------------------------------------------------------------
  // The theorem
  // ---------------------------------------------------------------------

  /** The entities that the first pass settles on, extended to values it never met. */
  ghost function FinalMark(c: Current, u: Upsert): Node -> int {
    (n: Node) => if n.KeyNode? && n.k !in u.pending && LookupEntity(c, n.k.a, n.k.v, 0).Some?
         then LookupEntity(c, n.k.a, n.k.v, 0).value else EntityOf(u, n)
  }

  lemma {:induction false} FinalMarkRespects(s: Schema, c: Current, batch: seq<TxDatom>, u: Upsert)
    requires HoldersKept(c, u)
    requires forall td :: td in batch ==> Resolved(s, u, td)
    ensures Respects(s, c, batch, FinalMark(c, u))
  {
    var mark := FinalMark(c, u);
    forall t, k | AssertsKey(s, batch, t, k) ensures mark(TempNode(t)) == mark(KeyNode(k)) {
      var td :| td in batch && Upserts(s, td) && td.e.name == t && KeyOf(s, td) == Some(k);
      assert Resolved(s, u, td);
    }
  }

  lemma {:induction false} UnnamedUnlinked(s: Schema, c: Current, batch: seq<TxDatom>, t: Bytes, n: Node)
    requires !Named(s, batch, t) && n != TempNode(t)
    ensures !Linked(s, c, batch, TempNode(t), n) && !Linked(s, c, batch, n, TempNode(t))
  {
    var mark := (x: Node) => if x == TempNode(t) then 1 else 0;
    forall x, y | Edge(s, c, batch, x, y) ensures mark(x) == mark(y) {
      forall k ensures !AssertsKey(s, batch, t, k) {
      }
    }
    UnequalUnlinked(s, c, batch, TempNode(t), n, mark);
    UnequalUnlinked(s, c, batch, n, TempNode(t), mark);
  }

  lemma {:induction false} UnequalUnlinked(s: Schema, c: Current, batch: seq<TxDatom>, m: Node, n: Node,
                                           mark: Node -> int)
    requires Respects(s, c, batch, mark) && mark(m) != mark(n)
    ensures !Linked(s, c, batch, m, n)
  {
    if Linked(s, c, batch, m, n) {
      var steps: nat :| Reach(s, c, batch, steps, m, n);
      ReachKeepsMark(s, c, batch, steps, m, n, mark);
    }
  }

  /** Two nodes that the first pass assigned share an entity exactly when they are linked. */
  lemma {:induction false} FirstPassShares(s: Schema, c: Current, batch: seq<TxDatom>, n0: int, m: Node, n: Node)
    requires BelowCounter(c, n0) && UpsertAll(s, c, Upsert(map[], map[], n0), batch).Next?
    ensures var u := UpsertAll(s, c, Upsert(map[], map[], n0), batch).s;
            Assigned(u, n0, m) && Assigned(u, n0, n)
            ==> (EntityOf(u, m) == EntityOf(u, n) <==> Linked(s, c, batch, m, n))
  {
    var u0 := Upsert(map[], map[], n0);
    var u := UpsertAll(s, c, u0, batch).s;
    var mark := LinkedRespects(s, c, batch, m);
    forall t, k | AssertsKey(s, batch, t, k) ensures mark(TempNode(t)) == mark(KeyNode(k)) {
      assert Edge(s, c, batch, TempNode(t), KeyNode(k));
    }
    forall k, e | HeldBy(c, k, e) ensures mark(KeyNode(k)) == mark(HolderNode(e)) {
      assert Edge(s, c, batch, KeyNode(k), HolderNode(e));
    }
    FirstPassCoherent(s, c, u0, batch, n0, mark);
    FinalMarkRespects(s, c, batch, u);
    hide Edge, Reach, UpsertAll, Resolved, Respects;
    if Assigned(u, n0, m) && Assigned(u, n0, n) && EntityOf(u, m) != EntityOf(u, n) {
      UnequalUnlinked(s, c, batch, m, n, FinalMark(c, u));
    }
  }

  /** After a successful transaction two TempIDs name one entity exactly when they are
      linked, through shared Identity values or a common existing holder; every TempID
      of the batch is resolved; and a TempID names an entity that existed before
      exactly when it is linked to that entity as the holder of an Identity value. */
  lemma {:induction false} TempIDsShareExactlyWhenLinked(st: DbState, tx: int, batch: seq<TxDatom>, txTime: int,
                                                         validFrom: int)
    requires BelowCounter(st.tables.current, st.nextEID)
    requires Commit(st, tx, batch, txTime, validFrom).1.Ok?
    ensures var ids := Commit(st, tx, batch, txTime, validFrom).1.value.tempids;
            var s, c := st.schema, st.tables.current;
            && (forall td :: td in batch && td.e.ETemp? ==> td.e.name in ids)
            && (forall t, t' :: t in ids && t' in ids
                  ==> (ids[t] == ids[t'] <==> Linked(s, c, batch, TempNode(t), TempNode(t'))))
            && (forall t, e :: t in ids && e < st.nextEID
                  ==> (ids[t] == e <==> Linked(s, c, batch, TempNode(t), HolderNode(e))))
  {
    var s, c, n0 := st.schema, st.tables.current, st.nextEID;
    var u := FirstPass(st, batch).s;
    var b0, ctx := Begun(st, u, tx, txTime), ContextOf(st, u, tx, validFrom);
    RunFresh(ctx, b0, batch);
    var b := RunAll(ctx, b0, batch).s;
    var ids := b.tempids;
    hide RunAll;
    forall t, t' | t in ids && t' in ids ensures ids[t] == ids[t'] <==> Linked(s, c, batch, TempNode(t), TempNode(t')) {
      TempIDAgainst(st, tx, batch, u, b, t, TempNode(t'));
    }
    forall t, e | t in ids && e < n0 ensures ids[t] == e <==> Linked(s, c, batch, TempNode(t), HolderNode(e)) {
      TempIDAgainst(st, tx, batch, u, b, t, HolderNode(e));
    }
  }

  lemma {:induction false} TempIDAgainst(st: DbState, tx: int, batch: seq<TxDatom>, u: Upsert, b: Batch, t: Bytes,
                                         n: Node)
    requires BelowCounter(st.tables.current, st.nextEID)
    requires FirstPass(st, batch) == Next(u) && FreshOnly(u.tempids, u.nextEID, b)
    requires t in b.tempids
    requires (n.HolderNode? && n.e < st.nextEID) || (n.TempNode? && n.t in b.tempids)
    ensures b.tempids[t] == (if n.HolderNode? then n.e else b.tempids[n.t])
            <==> Linked(st.schema, st.tables.current, batch, TempNode(t), n)
  {
    var s, c, n0 := st.schema, st.tables.current, st.nextEID;
    FirstPassShares(s, c, batch, n0, TempNode(t), n);
    FirstPassBounds(s, c, batch, n0);
    hide UpsertAll, FirstPass;
    if n == TempNode(t) {
      assert Reach(s, c, batch, 0, TempNode(t), n);
    } else if t !in u.tempids {
      UnnamedUnlinked(s, c, batch, t, n);
    } else if n.TempNode? && n.t !in u.tempids {
      UnnamedUnlinked(s, c, batch, n.t, TempNode(t));
    } else {
      assert Assigned(u, n0, TempNode(t)) && Assigned(u, n0, n);
    }
  }

  lemma {:induction false} FirstPassBounds(s: Schema, c: Current, batch: seq<TxDatom>, n0: int)
    requires BelowCounter(c, n0) && UpsertAll(s, c, Upsert(map[], map[], n0), batch).Next?
    ensures var u := UpsertAll(s, c, Upsert(map[], map[], n0), batch).s;
            && n0 <= u.nextEID
            && (forall t :: t in u.tempids ==> u.tempids[t] < u.nextEID)
            && (forall t :: Named(s, batch, t) ==> t in u.tempids)
  {
    FirstPassCoherent(s, c, Upsert(map[], map[], n0), batch, n0, _ => 0);
    var u := UpsertAll(s, c, Upsert(map[], map[], n0), batch).s;
    hide UpsertAll, KeyOf;
    forall t | t in u.tempids ensures u.tempids[t] < u.nextEID {
      assert Assigned(u, n0, TempNode(t));
    }
    forall t | Named(s, batch, t) ensures t in u.tempids {
      var td :| td in batch && Upserts(s, td) && td.e.name == t;
      assert Resolved(s, u, td);
    }
  }

  // ---------------------------------------------------------------------
  // When the first pass accepts a batch
  // ---------------------------------------------------------------------

  /** An Identity value with a holder, or asserted by these datoms. */
  ghost predicate Known(s: Schema, c: Current, part: seq<TxDatom>, k: Key) {
    (exists e :: HeldBy(c, k, e)) || exists t :: AssertsKey(s, part, t, k)
  }

  /** A datom of the first pass can be encoded; and if the datoms before it name its
      TempID, and its value is known by then, they already link the two. */
  ghost predicate Agreeable(s: Schema, c: Current, part: seq<TxDatom>, td: TxDatom) {
    Upserts(s, td) ==>
      && KeyOf(s, td).Some?
      && var t, k := td.e.name, KeyOf(s, td).value;
      (Named(s, part, t) && Known(s, c, part, k) ==> Linked(s, c, part, TempNode(t), KeyNode(k)))
  }

  ghost predicate AllAgreeable(s: Schema, c: Current, batch: seq<TxDatom>) {
    forall i :: 0 <= i < |batch| ==> Agreeable(s, c, batch[..i], batch[i])
  }

  lemma {:induction false} UpsertSnoc(s: Schema, c: Current, u: Upsert, pre: seq<TxDatom>, td: TxDatom)
    ensures var r := UpsertAll(s, c, u, pre);
            UpsertAll(s, c, u, pre + [td]) == if r.Next? then UpsertDatom(s, c, r.s, td) else r
    decreases |pre|
  {
    hide UpsertDatom;
    var batch := pre + [td];
    if pre == [] {
      assert batch[1..] == [];
      assert UpsertAll(s, c, u, batch) == UpsertDatom(s, c, u, td);
    } else {
      assert batch[1..] == pre[1..] + [td];
      var r := UpsertDatom(s, c, u, pre[0]);
      if r.Next? {
        UpsertSnoc(s, c, r.s, pre[1..], td);
      }
    }
  }

  lemma {:induction false} PendingAsserted(s: Schema, c: Current, u: Upsert, batch: seq<TxDatom>, k: Key)
    requires UpsertAll(s, c, u, batch).Next? && k in UpsertAll(s, c, u, batch).s.pending
    ensures k in u.pending || exists t :: AssertsKey(s, batch, t, k)
    decreases |batch|
  {
    if batch != [] {
      var td, rest := batch[0], batch[1..];
      var u1 := UpsertDatom(s, c, u, td).s;
      PendingAsserted(s, c, u1, rest, k);
      hide LookupEntity;
      if k in u1.pending {
        if k !in u.pending {
          assert AssertsKey(s, batch, td.e.name, k);
        }
      } else {
        var t :| AssertsKey(s, rest, t, k);
        assert AssertsKey(s, batch, t, k);
      }
    }
  }

  /** The state after some datoms, and what it says about a TempID and a value. */
  lemma {:induction false} StateAfter(s: Schema, c: Current, pre: seq<TxDatom>, n0: int, t: Bytes, k: Key)
    requires BelowCounter(c, n0) && UpsertAll(s, c, Upsert(map[], map[], n0), pre).Next?
    ensures var u := UpsertAll(s, c, Upsert(map[], map[], n0), pre).s;
            && (t in u.tempids <==> Named(s, pre, t))
            && (k in u.pending <==> exists t' :: AssertsKey(s, pre, t', k))
            && (t in u.tempids && k in u.pending
                ==> (u.tempids[t] == u.pending[k] <==> Linked(s, c, pre, TempNode(t), KeyNode(k))))
            && (forall e :: t in u.tempids && HeldBy(c, k, e)
                  ==> (u.tempids[t] == e <==> Linked(s, c, pre, TempNode(t), KeyNode(k))))
  {
    var u0 := Upsert(map[], map[], n0);
    var u := UpsertAll(s, c, u0, pre).s;
    FirstPassBounds(s, c, pre, n0);
    FirstPassCoherent(s, c, u0, pre, n0, _ => 0);
    if t' :| AssertsKey(s, pre, t', k) {
      var td :| td in pre && Upserts(s, td) && td.e.name == t' && KeyOf(s, td) == Some(k);
      assert Resolved(s, u, td);
    }
    if k in u.pending {
      PendingAsserted(s, c, u0, pre, k);
    }
    FirstPassShares(s, c, pre, n0, TempNode(t), KeyNode(k));
    hide UpsertAll, Coherent, Resolved;
    forall e | t in u.tempids && HeldBy(c, k, e)
      ensures u.tempids[t] == e <==> Linked(s, c, pre, TempNode(t), KeyNode(k))
    {
      HolderOrKey(s, c, pre, TempNode(t), k, e);
      assert Holds(c, k.a, k.v, 0, e);
      assert e < n0;
      FirstPassShares(s, c, pre, n0, TempNode(t), HolderNode(e));
    }
  }

  lemma {:induction false} HolderOrKey(s: Schema, c: Current, batch: seq<TxDatom>, m: Node, k: Key, e: int)
    requires HeldBy(c, k, e)
    ensures Linked(s, c, batch, m, HolderNode(e)) <==> Linked(s, c, batch, m, KeyNode(k))
  {
    hide Reach;
    if Linked(s, c, batch, m, HolderNode(e)) {
      LinkedStep(s, c, batch, m, HolderNode(e), KeyNode(k));
    }
    if Linked(s, c, batch, m, KeyNode(k)) {
      LinkedStep(s, c, batch, m, KeyNode(k), HolderNode(e));
    }
  }

  lemma {:induction false} StepAccepts(s: Schema, c: Current, pre: seq<TxDatom>, n0: int, td: TxDatom)
    requires BelowCounter(c, n0) && UpsertAll(s, c, Upsert(map[], map[], n0), pre).Next?
    ensures UpsertDatom(s, c, UpsertAll(s, c, Upsert(map[], map[], n0), pre).s, td).Next? <==> Agreeable(s, c, pre, td)
  {
    var u := UpsertAll(s, c, Upsert(map[], map[], n0), pre).s;
    if Upserts(s, td) && KeyOf(s, td).Some? {
      var t, k := td.e.name, KeyOf(s, td).value;
      StateAfter(s, c, pre, n0, t, k);
      assert forall e :: HeldBy(c, k, e) <==> LookupEntity(c, k.a, k.v, 0) == Some(e);
      FirstPassCoherent(s, c, Upsert(map[], map[], n0), pre, n0, _ => 0);
      hide UpsertAll, Linked, LookupEntity, AssertsKey, Named, Coherent, Resolved, BelowCounter;
    }
  }

  /** The first pass accepts a batch exactly when every datom it looks at can be encoded
      and links its TempID to its value only where they are linked already or one of
      the two is new. */
  lemma {:induction false} FirstPassAcceptsExactly(s: Schema, c: Current, n0: int, batch: seq<TxDatom>)
    requires BelowCounter(c, n0)
    ensures UpsertAll(s, c, Upsert(map[], map[], n0), batch).Next? <==> AllAgreeable(s, c, batch)
    decreases |batch|
  {
    if batch != [] {
      var n := |batch| - 1;
      var pre, td := batch[..n], batch[n];
      assert batch == pre + [td];
      FirstPassAcceptsExactly(s, c, n0, pre);
      assert forall i :: 0 <= i < n ==> pre[..i] == batch[..i] && pre[i] == batch[i];
      UpsertSnoc(s, c, Upsert(map[], map[], n0), pre, td);
      hide UpsertAll, UpsertDatom, Agreeable, BelowCounter;
      if AllAgreeable(s, c, pre) {
        StepAccepts(s, c, pre, n0, td);
        assert AllAgreeable(s, c, batch) <==> Agreeable(s, c, pre, td);
      }
    }
  }

  /** So acceptance depends on the order of the datoms. A TempID that asserts a new
      Identity value and a value held by entity e is accepted when the held value
      comes first, and rejected when the new value comes first, because the TempID
      has then already been given a fresh entity. */
  lemma {:induction false} FirstPassOrderMatters(s: Schema, c: Current, n0: int, held: TxDatom, new_: TxDatom, e: int)
    requires Upserts(s, held) && Upserts(s, new_) && held.e == new_.e
    requires KeyOf(s, held).Some? && KeyOf(s, new_).Some? && KeyOf(s, held) != KeyOf(s, new_)
    requires HeldBy(c, KeyOf(s, held).value, e)
             && LookupEntity(c, KeyOf(s, new_).value.a, KeyOf(s, new_).value.v, 0).None?
    requires BelowCounter(c, n0)
    ensures UpsertAll(s, c, Upsert(map[], map[], n0), [held, new_]).Next?
    ensures UpsertAll(s, c, Upsert(map[], map[], n0), [new_, held]).Stop?
  {
    var u0, k, k' := Upsert(map[], map[], n0), KeyOf(s, held).value, KeyOf(s, new_).value;
    assert Holds(c, k.a, k.v, 0, e);
    assert [held, new_][1..] == [new_] && [new_][1..] == [] && [new_, held][1..] == [held] && [held][1..] == [];
    assert UpsertDatom(s, c, u0, held) == Next(Upsert(map[held.e.name := e], map[k := e], n0));
    var u1 := Upsert(map[held.e.name := e], map[k := e], n0);
    assert UpsertDatom(s, c, u1, new_).Next?;
    assert UpsertAll(s, c, u1, [new_]).Next?;
    var u2 := Upsert(map[held.e.name := n0], map[k' := n0], n0 + 1);
    assert UpsertDatom(s, c, u0, new_) == Next(u2);
    assert UpsertDatom(s, c, u2, held).Stop?;
  }

  // ---------------------------------------------------------------------
  // Entity ids stay below the counter
  // ---------------------------------------------------------------------

  ghost predicate ExplicitBelow(batch: seq<TxDatom>, n: int) {
    forall td :: td in batch && td.e.EId? ==> td.e.id < n
  }

  ghost predicate AllBelow(b: Batch) {
    BelowCounter(b.tables.current, b.nextEID) && forall t :: t in b.tempids ==> b.tempids[t] < b.nextEID
  }

  lemma {:induction false} AdmitBelow(c: Context, b: Batch, attr: Attribute, f: Fact, td: TxDatom)
    requires AllBelow(b) && f.e < b.nextEID
    ensures AllBelow(Admit(c, b, attr, f, td).s)
  {
    hide LookupEntity, Duplicates, RowFor, DecodeOrNil;
  }

  lemma {:induction false} StepBelow(c: Context, b: Batch, td: TxDatom)
    requires AllBelow(b) && (td.e.EId? ==> td.e.id < b.nextEID)
    ensures AllBelow(StepDatom(c, b, td).s) && b.nextEID <= StepDatom(c, b, td).s.nextEID
  {
    if td.a in c.schema.byIdent {
      var attr := c.schema.byIdent[td.a];
      var re, enc := ResolveEntity(c, b, td.e), EncodeValue(td.v, attr.valueType);
      hide Admit, EncodeValue;
      if re.Ok? && enc.Ok? {
        var (e, b1) := re.value;
        assert e < b1.nextEID && AllBelow(b1);
        AdmitBelow(c, b1, attr, Fact(e, attr.id, enc.value), td);
        AdmitLeavesTempIDs(c, b1, attr, Fact(e, attr.id, enc.value), td);
      }
    }
  }

  lemma {:induction false} RunBelow(c: Context, b: Batch, batch: seq<TxDatom>)
    requires AllBelow(b) && ExplicitBelow(batch, b.nextEID)
    ensures AllBelow(RunAll(c, b, batch).s)
    decreases |batch|
  {
    if batch != [] {
      StepBelow(c, b, batch[0]);
      hide StepDatom, AllBelow;
      if StepDatom(c, b, batch[0]).Next? {
        RunBelow(c, StepDatom(c, b, batch[0]).s, batch[1..]);
      }
    }
  }

  /** The premise of the theorem above is kept by every transaction that names no entity
      id at or above the counter, and is true again after every reopening. */
  lemma {:induction false} BelowCounterKept(st: DbState, tx: int, batch: seq<TxDatom>, txTime: int, validFrom: int)
    requires BelowCounter(st.tables.current, st.nextEID) && ExplicitBelow(batch, st.nextEID)
    ensures var st' := Commit(st, tx, batch, txTime, validFrom).0; BelowCounter(st'.tables.current, st'.nextEID)
  {
    Invariants.FirstPassCounts(st.schema, st.tables.current, Upsert(map[], map[], st.nextEID), batch);
    var u := FirstPass(st, batch);
    if u.Next? {
      FirstPassBounds(st.schema, st.tables.current, batch, st.nextEID);
      hide FirstPass, RunAll, UpsertAll;
      assert AllBelow(Begun(st, u.s, tx, txTime));
      RunBelow(ContextOf(st, u.s, tx, validFrom), Begun(st, u.s, tx, txTime), batch);
    }
  }
}
