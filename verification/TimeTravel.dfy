/** Reading the past from the log alone: the AsOf rule of Pull (pull.go) and the AsOf
    rule of Query (query_api.go), against the states the store went through. */
module TimeTravel {
  import opened Prelude
  import opened Store
  import opened Transact
  import opened Invariants
  import opened Runs

  // ---------------------------------------------------------------------
  // The two visibility rules
  // ---------------------------------------------------------------------

  predicate AssertedBy(d: Row, t: int, f: Fact) { d.fact == f && d.added && d.tx <= t }

  predicate RetractedBy(r: Row, t: int, f: Fact) { r.fact == f && !r.added && r.tx <= t }

  /** Pull shows an assertion row unless a strictly later retraction reaches up to t. */
  predicate PullShows(log: seq<Row>, t: int, d: Row) {
    AssertedBy(d, t, d.fact) && forall r :: r in log && RetractedBy(r, t, d.fact) ==> r.tx <= d.tx
  }

  /** Query shows an assertion row unless any retraction of its fact is at or before t. */
  predicate QueryShows(log: seq<Row>, t: int, d: Row) {
    AssertedBy(d, t, d.fact) && forall r :: r in log ==> !RetractedBy(r, t, d.fact)
  }

  ghost predicate PullVisible(log: seq<Row>, t: int, f: Fact) {
    exists d :: d in log && d.fact == f && PullShows(log, t, d)
  }

  ghost predicate QueryVisible(log: seq<Row>, t: int, f: Fact) {
    exists d :: d in log && d.fact == f && QueryShows(log, t, d)
  }

  /** No fact has an assertion at or after one of its own retractions, in tx order. */
  ghost predicate RetractionsComeLater(log: seq<Row>) {
    forall d, r :: d in log && r in log && d.fact == r.fact && d.added && !r.added ==> d.tx < r.tx
  }

  /** Query's rule is the stricter one row by row, for any log whatever. */
  lemma {:induction false} QueryShowsLess(log: seq<Row>, t: int, d: Row)
    requires QueryShows(log, t, d)
    ensures PullShows(log, t, d)
  {
  }

  /** The two rules select the same facts at every time exactly when no fact has an
      assertion at or after one of its own retractions. No order on the log is assumed. */
  lemma {:induction false} RulesAgreeExactly(log: seq<Row>)
    ensures (forall t, f :: PullVisible(log, t, f) <==> QueryVisible(log, t, f)) <==> RetractionsComeLater(log)
  {
    if RetractionsComeLater(log) {
      forall t, f ensures PullVisible(log, t, f) <==> QueryVisible(log, t, f) {
        if QueryVisible(log, t, f) {
          var d :| d in log && d.fact == f && QueryShows(log, t, d);
          QueryShowsLess(log, t, d);
        }
        if PullVisible(log, t, f) {
          var d :| d in log && d.fact == f && PullShows(log, t, d);
          assert QueryShows(log, t, d);
        }
      }
    } else {
      var d, r :| d in log && r in log && d.fact == r.fact && d.added && !r.added && r.tx <= d.tx;
      assert PullShows(log, d.tx, d) && RetractedBy(r, d.tx, d.fact);
      assert PullVisible(log, d.tx, d.fact) && !QueryVisible(log, d.tx, d.fact);
    }
  }

  // ---------------------------------------------------------------------
  // The log up to a time
  // ---------------------------------------------------------------------

  function Upto(log: seq<Row>, t: int): seq<Row> {
    if log == [] then []
    else Upto(log[..|log| - 1], t) + if log[|log| - 1].tx <= t then [log[|log| - 1]] else []
  }

  ghost predicate Sorted(log: seq<Row>) {
    forall i, j :: 0 <= i <= j < |log| ==> log[i].tx <= log[j].tx
  }

  /** At most one assertion and one retraction of a fact in a transaction. */
  ghost predicate OncePerTx(log: seq<Row>) {
    forall i, j :: 0 <= i < j < |log| && log[i].fact == log[j].fact && log[i].tx == log[j].tx
      ==> log[i].added != log[j].added
  }

  /** A cut of the log: what is before n is at most t, what is after is later. */
  ghost predicate CutAt(log: seq<Row>, t: int, n: nat) {
    && n <= |log|
    && (forall i :: 0 <= i < n ==> log[i].tx <= t)
    && (forall i :: n <= i < |log| ==> log[i].tx > t)
  }

  lemma {:induction false} UptoAll(log: seq<Row>, t: int)
    requires forall r :: r in log ==> r.tx <= t
    ensures Upto(log, t) == log
  {
    if log != [] {
      var rest := log[..|log| - 1];
      UptoAll(rest, t);
      assert log[|log| - 1] in log && log == rest + [log[|log| - 1]];
    }
  }

  lemma {:induction false} UptoIsCut(log: seq<Row>, t: int, n: nat)
    requires CutAt(log, t, n)
    ensures Upto(log, t) == log[..n]
  {
    if n == |log| {
      UptoAll(log, t);
    } else {
      var rest := log[..|log| - 1];
      assert CutAt(rest, t, n);
      hide CutAt;
      UptoIsCut(rest, t, n);
      assert rest[..n] == log[..n];
    }
  }

  lemma {:induction false} CutExists(log: seq<Row>, t: int) returns (n: nat)
    requires Sorted(log)
    ensures CutAt(log, t, n)
  {
    n := 0;
    if log != [] {
      var k := |log| - 1;
      var rest := log[..k];
      assert forall i, j :: 0 <= i <= j < k
               ==> rest[i].tx == log[i].tx && rest[j].tx == log[j].tx && log[i].tx <= log[j].tx;
      n := CutExists(rest, t);
      if log[k].tx <= t {
        assert forall i :: 0 <= i < |log| ==> log[i].tx <= log[k].tx;
        n := |log|;
      } else {
        assert forall i :: 0 <= i < k ==> rest[i] == log[i];
      }
    }
  }

  // ---------------------------------------------------------------------
  // Each rule against the snapshots, on a log in transaction order
  // ---------------------------------------------------------------------

  /** Some transaction retracts a fact after asserting it. */
  ghost predicate UndoneAt(log: seq<Row>, i: nat, j: nat) {
    i < j < |log| && log[i].fact == log[j].fact && log[i].tx == log[j].tx && log[i].added && !log[j].added
  }

  ghost predicate AssertsThenRetracts(log: seq<Row>) {
    exists i: nat, j: nat :: UndoneAt(log, i, j)
  }

  lemma {:induction false} LastAbout(p: seq<Row>, f: Fact, k: nat) returns (l: nat)
    requires k < |p| && p[k].fact == f
    ensures k <= l < |p| && p[l].fact == f && forall j :: l < j < |p| ==> p[j].fact != f
    decreases |p| - k
  {
    if j :| k < j < |p| && p[j].fact == f {
      l := LastAbout(p, f, j);
    } else {
      l := k;
    }
  }

  lemma {:induction false} PullAtCut(log: seq<Row>, t: int, n: nat, f: Fact)
    requires Sorted(log) && CutAt(log, t, n)
    ensures LastIsAssertion(log[..n], f) ==> PullVisible(log, t, f)
    ensures !AssertsThenRetracts(log) && PullVisible(log, t, f) ==> LastIsAssertion(log[..n], f)
  {
    var p := log[..n];
    if LastIsAssertion(p, f) {
      var i :| 0 <= i < |p| && p[i].fact == f && p[i].added && forall j :: i < j < |p| ==> p[j].fact != f;
      forall r | r in log && RetractedBy(r, t, f) ensures r.tx <= log[i].tx {
        var k :| 0 <= k < |log| && log[k] == r;
        assert k < n && p[k] == log[k];
      }
      assert PullShows(log, t, log[i]);
    }
    if PullVisible(log, t, f) && !LastIsAssertion(p, f) {
      var d :| d in log && d.fact == f && PullShows(log, t, d);
      var i :| 0 <= i < |log| && log[i] == d;
      var l := LastAbout(p, f, i);
      assert p[l] == log[l] && !log[l].added && RetractedBy(log[l], t, f);
      assert UndoneAt(log, i, l);
    }
  }

  /** A fact asserted and then retracted by one transaction is not in the state that the
      transaction left, but Pull shows it. */
  lemma {:induction false} UndoneShows(log: seq<Row>, i: nat, j: nat)
    requires Sorted(log) && OncePerTx(log) && UndoneAt(log, i, j)
    ensures PullVisible(log, log[i].tx, log[i].fact) && log[i].fact !in Replay(Upto(log, log[i].tx))
  {
    var t, f := log[i].tx, log[i].fact;
    var n := CutExists(log, t);
    UptoIsCut(log, t, n);
    ReplayKeepsLast(log[..n], f);
    assert PullShows(log, t, log[i]) && PullVisible(log, t, f);
    assert !LastIsAssertion(log[..n], f) by {
      NothingAfter(log, t, n, i, j);
    }
  }

  /** Pull's rule recovers every past state from the log exactly when no transaction
      retracted a fact after asserting it. */
  lemma {:induction false} PullExact(log: seq<Row>)
    requires Sorted(log) && OncePerTx(log)
    ensures (forall t, f :: PullVisible(log, t, f) <==> f in Replay(Upto(log, t))) <==> !AssertsThenRetracts(log)
  {
    if AssertsThenRetracts(log) {
      var i: nat, j: nat :| UndoneAt(log, i, j);
      UndoneShows(log, i, j);
    } else {
      forall t, f ensures PullVisible(log, t, f) <==> f in Replay(Upto(log, t)) {
        var n := CutExists(log, t);
        UptoIsCut(log, t, n);
        ReplayKeepsLast(log[..n], f);
        PullAtCut(log, t, n, f);
      }
    }
  }

  lemma {:induction false} NothingAfter(log: seq<Row>, t: int, n: nat, i: nat, j: nat)
    requires Sorted(log) && OncePerTx(log) && CutAt(log, t, n) && UndoneAt(log, i, j) && log[i].tx == t
    ensures j < n && forall k :: j < k < n ==> log[k].fact != log[i].fact
    ensures !LastIsAssertion(log[..n], log[i].fact)
  {
    assert j < n;
    var p := log[..n];
    forall k | j < k < n ensures log[k].fact != log[i].fact {
      assert log[k].tx == t;
    }
    assert p[j] == log[j];
    assert forall k :: 0 <= k < |p| ==> p[k] == log[k];
  }

  /** The assertion at j follows a retraction of its fact and is not itself undone
      within its own transaction. */
  ghost predicate RevivedAt(log: seq<Row>, i: nat, j: nat) {
    && i < j < |log| && log[i].fact == log[j].fact && !log[i].added && log[j].added
    && forall k: nat :: !UndoneAt(log, j, k)
  }

  ghost predicate Revives(log: seq<Row>) {
    exists i: nat, j: nat :: RevivedAt(log, i, j)
  }

  lemma {:induction false} QueryAtCut(log: seq<Row>, t: int, n: nat, f: Fact)
    requires Sorted(log) && CutAt(log, t, n)
    ensures QueryVisible(log, t, f) ==> LastIsAssertion(log[..n], f)
    ensures !Revives(log) && LastIsAssertion(log[..n], f) ==> QueryVisible(log, t, f)
  {
    var p := log[..n];
    if QueryVisible(log, t, f) {
      var d :| d in log && d.fact == f && QueryShows(log, t, d);
      var i :| 0 <= i < |log| && log[i] == d;
      var l := LastAbout(p, f, i);
      assert p[l] == log[l] && !RetractedBy(log[l], t, f);
    }
    if LastIsAssertion(p, f) && !Revives(log) {
      var j :| 0 <= j < |p| && p[j].fact == f && p[j].added && forall k :: j < k < |p| ==> p[k].fact != f;
      assert p[j] == log[j];
      forall r | r in log ensures !RetractedBy(r, t, f) {
        if RetractedBy(r, t, f) {
          var i :| 0 <= i < |log| && log[i] == r;
          assert i < n && p[i] == log[i];
          assert RevivedAt(log, i, j) by {
            forall k: nat ensures !UndoneAt(log, j, k) {
              assert j < k < n ==> p[k] == log[k];
            }
          }
        }
      }
      assert QueryShows(log, t, log[j]);
    }
  }

  /** A revived fact is in the state its transaction left, but Query does not show it. */
  lemma {:induction false} RevivalHides(log: seq<Row>, i: nat, j: nat)
    requires Sorted(log) && OncePerTx(log) && RevivedAt(log, i, j)
    ensures !QueryVisible(log, log[j].tx, log[j].fact) && log[j].fact in Replay(Upto(log, log[j].tx))
  {
    var t, f := log[j].tx, log[j].fact;
    var n := CutExists(log, t);
    UptoIsCut(log, t, n);
    ReplayKeepsLast(log[..n], f);
    RevivedIsLast(log, t, n, i, j);
    assert RetractedBy(log[i], t, f);
  }

  /** Query's rule recovers every past state exactly when no fact, once retracted, was
      ever asserted again for good. */
  lemma {:induction false} QueryExact(log: seq<Row>)
    requires Sorted(log) && OncePerTx(log)
    ensures (forall t, f :: QueryVisible(log, t, f) <==> f in Replay(Upto(log, t))) <==> !Revives(log)
  {
    if Revives(log) {
      var i: nat, j: nat :| RevivedAt(log, i, j);
      RevivalHides(log, i, j);
    } else {
      forall t, f ensures QueryVisible(log, t, f) <==> f in Replay(Upto(log, t)) {
        var n := CutExists(log, t);
        UptoIsCut(log, t, n);
        ReplayKeepsLast(log[..n], f);
        QueryAtCut(log, t, n, f);
      }
    }
  }

  lemma {:induction false} RevivedIsLast(log: seq<Row>, t: int, n: nat, i: nat, j: nat)
    requires Sorted(log) && OncePerTx(log) && CutAt(log, t, n) && RevivedAt(log, i, j) && log[j].tx == t
    ensures LastIsAssertion(log[..n], log[j].fact)
  {
    var p := log[..n];
    assert p[j] == log[j];
    forall k | j < k < |p| ensures p[k].fact != log[j].fact {
      assert p[k] == log[k] && log[k].tx == t && !UndoneAt(log, j, k);
    }
  }

  /** The condition under which the two rules agree also makes both exact. */
  lemma {:induction false} LaterRetractionsSuffice(log: seq<Row>)
    requires Sorted(log) && RetractionsComeLater(log)
    ensures !Revives(log) && !AssertsThenRetracts(log)
  {
    forall i: nat, j: nat ensures !RevivedAt(log, i, j) && !UndoneAt(log, i, j) {
      if i < |log| && j < |log| {
        assert log[i] in log && log[j] in log;
      }
    }
  }

  // ---------------------------------------------------------------------
  // Runs
  // ---------------------------------------------------------------------

  /** What current_datoms was after the last recorded transaction with id at most t. */
  ghost function SnapshotAt(h: seq<Committed>, t: int): Current {
    if h == [] then map[]
    else if h[|h| - 1].tx <= t then h[|h| - 1].tables.current
    else SnapshotAt(h[..|h| - 1], t)
  }

  /** The record of a run: everything SysValid says of a history, with its final log. */
  ghost predicate Recorded(h: seq<Committed>) {
    Chained(h) && AllViews(h) && Ordered(h)
  }

  /** The tables after the whole history. */
  function Final(h: seq<Committed>): Tables {
    Before(h, |h|)
  }

  lemma {:induction false} RecordedPrefix(h: seq<Committed>)
    requires Recorded(h) && h != []
    ensures var g := h[..|h| - 1]; Recorded(g) && Final(g) == Before(h, |h| - 1) && Appends(Final(g), h[|h| - 1])
    ensures |h| > 1 ==> h[|h| - 2].tx < h[|h| - 1].tx
  {
    hide Appends, IsView;
    var g := h[..|h| - 1];
    assert forall i :: 0 <= i < |g| ==> g[i] == h[i];
    forall i | 0 <= i < |g| ensures Appends(Before(g, i), g[i]) {
      assert Before(g, i) == Before(h, i);
    }
  }

  lemma {:induction false} DistinctPrefix(p: seq<Row>, log: seq<Row>)
    requires p <= log && DistinctRows(log)
    ensures DistinctRows(p)
  {
    forall i, j | 0 <= i < j < |p| ensures !SameKey(p[i], p[j]) {
      assert p[i] == log[i] && p[j] == log[j];
    }
  }

  /** In a run whose commits follow id order the log is in transaction order, has each
      fact at most once per transaction and direction, and nothing beyond the last id. */
  lemma {:induction false} OrderedLog(h: seq<Committed>)
    requires Recorded(h) && DistinctRows(Final(h).datoms)
    ensures Sorted(Final(h).datoms) && OncePerTx(Final(h).datoms)
    ensures forall r :: r in Final(h).datoms ==> h != [] && r.tx <= h[|h| - 1].tx
  {
    if h != [] {
      var n := |h| - 1;
      var g, c := h[..n], h[n];
      RecordedPrefix(h);
      hide Recorded, DistinctRows, Sorted, OncePerTx, SameKey;
      var old_, log := Final(g).datoms, Final(h).datoms;
      DistinctPrefix(old_, log);
      OrderedLog(g);
      OrderedAppend(old_, log, c);
    }
  }

  lemma {:induction false} OrderedAppend(old_: seq<Row>, log: seq<Row>, c: Committed)
    requires old_ <= log && Sorted(old_) && OncePerTx(old_) && DistinctRows(log)
    requires forall r :: r in old_ ==> r.tx < c.tx
    requires forall i :: |old_| <= i < |log| ==> OwnRow(c, log[i])
    ensures Sorted(log) && OncePerTx(log)
    ensures forall r :: r in log ==> r.tx <= c.tx
  {
    assert forall i :: 0 <= i < |old_| ==> log[i] == old_[i] && old_[i] in old_;
    forall i, j | 0 <= i < j < |log| && log[i].fact == log[j].fact && log[i].tx == log[j].tx
      ensures log[i].added != log[j].added
    {
      if j >= |old_| {
        assert i >= |old_| && OwnRow(c, log[i]) && OwnRow(c, log[j]) && !SameKey(log[i], log[j]);
      }
    }
  }

  /** The log up to t is the log as it was after the last transaction with id at most t. */
  lemma {:induction false} SnapshotIsReplay(h: seq<Committed>, t: int)
    requires Recorded(h) && DistinctRows(Final(h).datoms)
    ensures SnapshotAt(h, t) == Replay(Upto(Final(h).datoms, t))
  {
    if h == [] {
      EmptyIsView();
    } else {
      var n := |h| - 1;
      var g, c := h[..n], h[n];
      OrderedLog(h);
      RecordedPrefix(h);
      var old_, log := Final(g).datoms, Final(h).datoms;
      if c.tx <= t {
        UptoAll(log, t);
        assert IsView(h[n].tables);
      } else {
        DistinctPrefix(old_, log);
        hide Chained, AllViews, DistinctRows;
        SnapshotIsReplay(g, t);
        UptoDropsTail(old_, log, c, t);
      }
    }
  }

  lemma {:induction false} UptoDropsTail(old_: seq<Row>, log: seq<Row>, c: Committed, t: int)
    requires old_ <= log && Sorted(log) && t < c.tx
    requires forall i :: |old_| <= i < |log| ==> OwnRow(c, log[i])
    ensures Upto(log, t) == Upto(old_, t)
  {
    var n := CutExists(log, t);
    UptoIsCut(log, t, n);
    assert |old_| < |log| ==> OwnRow(c, log[|old_|]);
    assert CutAt(old_, t, n) by {
      assert forall i :: 0 <= i < |old_| ==> old_[i] == log[i];
    }
    UptoIsCut(old_, t, n);
    assert old_[..n] == log[..n];
  }

  // ---------------------------------------------------------------------
  // The theorems
  // ---------------------------------------------------------------------

  /** A run on which AsOf by transaction id makes sense: commits followed id order, and
      no failing batch left current_datoms behind the log. */
  ghost predicate InOrder(acts: seq<Action>) {
    Ordered(Run(acts).history) && GapFree(Run(acts).history)
  }

  lemma {:induction false} RunRecorded(acts: seq<Action>)
    requires InOrder(acts)
    ensures var s := Run(acts);
            && Recorded(s.history) && DistinctRows(s.db.tables.datoms) && s.db.tables == Final(s.history)
            && Sorted(s.db.tables.datoms) && OncePerTx(s.db.tables.datoms)
  {
    EveryRun(acts);
    OrderedLog(Run(acts).history);
  }

  /** Pull on AsOf(t) sees exactly the facts current_datoms had after t, for every t and
      every fact, exactly when no transaction retracted a fact after asserting it. */
  lemma {:induction false} PullTimeTravel(acts: seq<Action>)
    requires InOrder(acts)
    ensures var s := Run(acts); var log := s.db.tables.datoms;
            (forall t, f :: PullVisible(log, t, f) <==> f in SnapshotAt(s.history, t)) <==> !AssertsThenRetracts(log)
  {
    var s := Run(acts);
    RunRecorded(acts);
    forall t ensures SnapshotAt(s.history, t) == Replay(Upto(s.db.tables.datoms, t)) {
      SnapshotIsReplay(s.history, t);
    }
    hide Run, PullVisible, AssertsThenRetracts, SnapshotAt, Upto, Replay;
    PullExact(s.db.tables.datoms);
  }

  /** Queries on AsOf(t) draw on exactly the facts current_datoms had after t exactly
      when no fact, once retracted, was ever asserted again for good. */
  lemma {:induction false} QueryTimeTravel(acts: seq<Action>)
    requires InOrder(acts)
    ensures var s := Run(acts); var log := s.db.tables.datoms;
            (forall t, f :: QueryVisible(log, t, f) <==> f in SnapshotAt(s.history, t)) <==> !Revives(log)
  {
    var s := Run(acts);
    RunRecorded(acts);
    forall t ensures SnapshotAt(s.history, t) == Replay(Upto(s.db.tables.datoms, t)) {
      SnapshotIsReplay(s.history, t);
    }
    hide Run, QueryVisible, Revives, SnapshotAt, Upto, Replay;
    QueryExact(s.db.tables.datoms);
  }
}
