/** Whole runs of the store. Clients take transaction ids, commit batches in any
    order under the write lock, define attributes, and reopen the file; the ids are
    taken before the lock, so commit order need not be id order. */
module Runs {
  import opened Prelude
  import opened Values
  import opened Store
  import opened Transact
  import opened Invariants
  import Outline

  datatype Action =
    | Begin                                                                        // allocTxID
    | CommitTx(tx: int, batch: seq<TxDatom>, txTime: int, validFrom: int)          // the locked part of transact
    | DefineAttr(attr: Attribute)
    | Reopen

  /** A recorded transaction: its id and valid_from, the tables it left, and whether it
      ended in the gap. */
  datatype Committed = Committed(tx: int, validFrom: int, tables: Tables, gap: bool)

  datatype Sys = Sys(db: DbState, open_: set<int>, history: seq<Committed>)

  const EMPTY: Tables := Tables([], map[], map[])

  function Start(): Sys {
    Sys(DbState(EMPTY, Schema(map[], map[]), 1, 1), {}, [])
  }

  ghost function Step(s: Sys, act: Action): Sys {
    match act
    case Begin => s.(db := s.db.(nextTx := s.db.nextTx + 1), open_ := s.open_ + {s.db.nextTx})
    case CommitTx(tx, batch, txTime, validFrom) =>
      if tx !in s.open_ then s
      else
        var (db, r) := Commit(s.db, tx, batch, txTime, validFrom);
        Sys(db, s.open_ - {tx},
            if tx in db.tables.transactions then s.history
              + [Committed(tx, validFrom, db.tables, GapIn(tx, db.tables, r))] else s.history)
    case DefineAttr(attr) => s.(db := Define(s.db, attr).0)
    case Reopen => s.(db := Reload(s.db), open_ := {})
  }

  ghost function Run(acts: seq<Action>): Sys {
    if acts == [] then Start() else Step(Run(acts[..|acts| - 1]), acts[|acts| - 1])
  }

  /** The tables that the i-th recorded transaction found. */
  function Before(h: seq<Committed>, i: nat): Tables
    requires i <= |h|
  {
    if i == 0 then EMPTY else h[i - 1].tables
  }

  predicate OwnRow(c: Committed, r: Row) {
    r.tx == c.tx && r.validFrom == c.validFrom
  }

  /** A recorded transaction appended rows of its own to what it found. */
  ghost predicate Appends(t: Tables, c: Committed) {
    && t.datoms <= c.tables.datoms
    && (forall i :: |t.datoms| <= i < |c.tables.datoms| ==> OwnRow(c, c.tables.datoms[i]))
    && c.tx !in t.transactions
    && c.tables.transactions.Keys == t.transactions.Keys + {c.tx}
  }

  ghost predicate Chained(h: seq<Committed>) {
    forall i :: 0 <= i < |h| ==> Appends(Before(h, i), h[i])
  }

  ghost predicate GapFree(h: seq<Committed>) {
    forall i :: 0 <= i < |h| ==> !h[i].gap
  }

  /** Commits happened in the order of their ids. */
  ghost predicate Ordered(h: seq<Committed>) {
    forall i, j :: 0 <= i < j < |h| ==> h[i].tx < h[j].tx
  }

  ghost predicate AllViews(h: seq<Committed>) {
    forall i :: 0 <= i < |h| ==> IsView(h[i].tables)
  }

  ghost predicate SysValid(s: Sys) {
    && StateValid(s.db)
    && (forall t :: t in s.open_ ==> 1 <= t < s.db.nextTx && t !in s.db.tables.transactions)
    && s.db.tables == Before(s.history, |s.history|)
    && Chained(s.history)
    && (GapFree(s.history) ==> AllViews(s.history))
  }

  lemma {:induction false} CommitStep(s: DbState, tx: int, batch: seq<TxDatom>, txTime: int, validFrom: int)
    requires StateValid(s) && 1 <= tx < s.nextTx && tx !in s.tables.transactions
    ensures var (db, r) := Commit(s, tx, batch, txTime, validFrom);
            && StateValid(db) && db.nextTx == s.nextTx
            && (if tx in db.tables.transactions
                then Appends(s.tables, Committed(tx, validFrom, db.tables, GapIn(tx, db.tables, r)))
                else db.tables == s.tables)
            && db.tables.transactions.Keys <= s.tables.transactions.Keys + {tx}
            && (IsView(s.tables) && !GapIn(tx, db.tables, r) ==> IsView(db.tables))
  {
    hide StateValid, GapIn, IsView, Commit, Reported;
    CommitKeeps(s, tx, batch, txTime, validFrom);
    CommitRecords(s, tx, batch, txTime, validFrom);
  }

  lemma {:induction false} ChainSnoc(h: seq<Committed>, c: Committed)
    requires Chained(h) && Appends(Before(h, |h|), c)
    requires GapFree(h) ==> AllViews(h)
    requires IsView(Before(h, |h|)) && !c.gap ==> IsView(c.tables)
    ensures Chained(h + [c])
    ensures GapFree(h + [c]) ==> AllViews(h + [c])
  {
    hide Appends, IsView;
    var h' := h + [c];
    forall i | 0 <= i < |h'| ensures Appends(Before(h', i), h'[i]) {
      assert Before(h', i) == Before(h, i);
    }
    if GapFree(h') {
      assert forall i :: 0 <= i < |h| ==> h[i] == h'[i];
      assert h'[|h|] == c;
      EmptyIsView();
    }
  }

  lemma {:induction false} EmptyIsView()
    ensures IsView(EMPTY)
  {
  }

  lemma {:induction false} CommitKeepsSys(s: Sys, tx: int, batch: seq<TxDatom>, txTime: int, validFrom: int)
    requires SysValid(s) && tx in s.open_
    ensures SysValid(Step(s, CommitTx(tx, batch, txTime, validFrom)))
  {
    CommitStep(s.db, tx, batch, txTime, validFrom);
    hide StateValid, Commit, GapIn, IsView, Appends, Chained, GapFree, AllViews;
    var (db, r) := Commit(s.db, tx, batch, txTime, validFrom);
    if tx in db.tables.transactions {
      ChainSnoc(s.history, Committed(tx, validFrom, db.tables, GapIn(tx, db.tables, r)));
    }
  }

  lemma {:induction false} StepKeepsSys(s: Sys, act: Action)
    requires SysValid(s)
    ensures SysValid(Step(s, act))
  {
    hide TablesValid, Chained, GapFree, AllViews, Commit;
    match act
    case Begin =>
    case DefineAttr(attr) => DefineKeeps(s.db, attr);
    case Reopen => ReloadKeeps(s.db);
    case CommitTx(tx, batch, txTime, validFrom) =>
      if tx in s.open_ {
        CommitKeepsSys(s, tx, batch, txTime, validFrom);
      }
  }

  /** In every reachable state each CardOne attribute has at most one value per entity,
      each Identity value at most one holder, and every row's typed columns agree with
      its BLOB; and as long as no batch ended in the gap, current_datoms was the replay
      of the log after every commit. Failed batches and any interleaving included. */
  lemma {:induction false} EveryRun(acts: seq<Action>)
    ensures SysValid(Run(acts))
  {
    if acts == [] {
    } else {
      EveryRun(acts[..|acts| - 1]);
      StepKeepsSys(Run(acts[..|acts| - 1]), acts[|acts| - 1]);
    }
  }

  /** If no batch of a run retracts what it asserted, no commit ends in the gap. */
  lemma {:induction false} HarmlessRunsAreGapFree(acts: seq<Action>)
    requires forall act :: act in acts && act.CommitTx? ==> Outline.Harmless(act.batch)
    ensures GapFree(Run(acts).history) && AllViews(Run(acts).history)
  {
    EveryRun(acts);
    if acts != [] {
      var n := |acts| - 1;
      var s := Run(acts[..n]);
      HarmlessRunsAreGapFree(acts[..n]);
      EveryRun(acts[..n]);
      assert IsView(s.db.tables) by {
        EmptyIsView();
      }
      hide Run, Chained, AllViews, Commit, GapIn, IsView, Outline.Harmless;
      if acts[n].CommitTx? && acts[n].tx in s.open_ {
        assert acts[n] in acts;
        Outline.HarmlessKeepsView(s.db, acts[n].tx, acts[n].batch, acts[n].txTime, acts[n].validFrom);
      } else {
        OnlyCommitsRecord(s, acts[n]);
      }
      assert Run(acts) == Step(s, acts[n]) by { RunSnoc(acts); }
    }
  }

  lemma {:induction false} RunSnoc(acts: seq<Action>)
    requires acts != []
    ensures Run(acts) == Step(Run(acts[..|acts| - 1]), acts[|acts| - 1])
  {
  }

  // ---------------------------------------------------------------------
  // Runs without concurrent writers
  // ---------------------------------------------------------------------

  /** Every commit directly follows the Begin that took its id. */
  ghost predicate Serial(acts: seq<Action>) {
    forall i :: 0 <= i < |acts| && acts[i].CommitTx? ==>
      i > 0 && acts[i - 1] == Begin && acts[i].tx == Run(acts[..i - 1]).db.nextTx
  }

  lemma {:induction false} ChainedPrefix(h: seq<Committed>)
    requires Chained(h) && h != []
    ensures Chained(h[..|h| - 1])
    ensures h[|h| - 1].tables.transactions.Keys == Before(h, |h| - 1).transactions.Keys + {h[|h| - 1].tx}
  {
    assert Appends(Before(h, |h| - 1), h[|h| - 1]);
    hide Appends;
    var g := h[..|h| - 1];
    forall i | 0 <= i < |g| ensures Appends(Before(g, i), g[i]) {
      assert Before(g, i) == Before(h, i) && Appends(Before(h, i), h[i]);
    }
  }

  lemma {:induction false} HistoryIsRecorded(h: seq<Committed>, i: nat)
    requires Chained(h) && i < |h|
    ensures h[i].tx in Before(h, |h|).transactions
    decreases |h|
  {
    hide Chained;
    var g, n := h[..|h| - 1], |h| - 1;
    ChainedPrefix(h);
    if i < n {
      HistoryIsRecorded(g, i);
      assert Before(g, |g|) == Before(h, n) && g[i] == h[i];
    }
  }

  lemma {:induction false} SerialPrefix(acts: seq<Action>)
    requires Serial(acts) && acts != []
    ensures Serial(acts[..|acts| - 1])
  {
    hide Run;
    var before := acts[..|acts| - 1];
    forall i | 0 <= i < |before| && before[i].CommitTx?
      ensures i > 0 && before[i - 1] == Begin && before[i].tx == Run(before[..i - 1]).db.nextTx
    {
      assert before[i] == acts[i] && (i > 0 ==> before[..i - 1] == acts[..i - 1]);
    }
  }

  lemma {:induction false} OnlyCommitsRecord(s: Sys, act: Action)
    requires act.CommitTx? ==> act.tx !in s.open_
    ensures Step(s, act).history == s.history
  {
    hide Commit;
  }

  /** Without concurrent writers, commits follow id order. */
  lemma {:induction false} SerialRunsAreOrdered(acts: seq<Action>)
    requires Serial(acts)
    ensures Ordered(Run(acts).history)
    decreases |acts|
  {
    if acts != [] {
      var n := |acts| - 1;
      var before := acts[..n];
      SerialPrefix(acts);
      SerialRunsAreOrdered(before);
      var s := Run(before);
      if acts[n].CommitTx? && acts[n].tx in s.open_ {
        var earlier := acts[..n - 1];
        assert before[..n - 1] == earlier && before[n - 1] == Begin;
        assert s == Step(Run(earlier), Begin);
        assert Ordered(Run(earlier).history) by {
          OnlyCommitsRecord(Run(earlier), Begin);
        }
        hide Step;
        SerialCommit(earlier, acts[n]);
      } else {
        hide Step;
        OnlyCommitsRecord(s, acts[n]);
      }
    }
  }

  lemma {:induction false} SerialCommit(acts: seq<Action>, act: Action)
    requires act.CommitTx? && act.tx == Run(acts).db.nextTx && Ordered(Run(acts).history)
    ensures Ordered(Step(Step(Run(acts), Begin), act).history)
  {
    EveryRun(acts);
    var s := Run(acts);
    hide Run, Commit, GapIn, TablesValid, Chained, AllViews;
    forall i | 0 <= i < |s.history| ensures s.history[i].tx < act.tx {
      HistoryIsRecorded(s.history, i);
    }
  }
}
