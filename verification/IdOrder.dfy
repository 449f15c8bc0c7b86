/** Deadlock on event ids: batches that reuse ids wait for each other's uncommitted review_log rows.
    When that can, and when it cannot, stop them (internal/review/grade.go, internal/review/lock.go). */
module IdOrder {
  import opened Wrappers
  import opened ReviewLog
  import opened Grading
  import opened LockProtocol
  import B = GradeBatch

  type Rank = Id -> int

  ghost predicate Injective(rank: Rank) { forall x, y :: rank(x) == rank(y) ==> x == y }

  // Locks are taken ascending, and all of them before the first row is written.
  ghost predicate Disciplined(t: Tx) {
    && B.Ascending(t.wanted) && (forall h, k :: h in t.held && k in t.wanted ==> h < k)
    && (t.log != [] ==> t.wanted == []) && (t.done ==> t.held == {} && t.log == [])
  }

  // No id to come ranks below one already used.
  ghost predicate InOrder(rank: Rank, t: Tx) {
    && (forall i, j :: 0 <= i < j < |t.todo| ==> rank(t.todo[i].review.id) <= rank(t.todo[j].review.id))
    && (forall i, j :: 0 <= i < |t.log| && 0 <= j < |t.todo| ==> rank(t.log[i].review.id) <= rank(t.todo[j].review.id))
  }

  // An uncommitted id belongs to one transaction.
  ghost predicate LogsApart(s: System) {
    forall i, j, id :: 0 <= i < j < |s.txs| ==> !(Logged(s.txs[i].log, id) && Logged(s.txs[j].log, id))
  }

  ghost predicate IdInv(rank: Rank, s: System) {
    (forall i :: 0 <= i < |s.txs| ==> Disciplined(s.txs[i]) && InOrder(rank, s.txs[i])) && LogsApart(s)
  }

  // Transactions that have not begun; nothing is asked of their ids.
  ghost predicate Unbegun(t: Tx) {
    t.held == {} && t.log == [] && t.states == map[] && !t.done && B.Ascending(t.wanted)
  }

  // What one grade writes: at most the row of its event, whose id is in the log afterwards.
  lemma WroteLog(sched: Scheduler, db: Db, t: Tx)
    requires t.todo != [] && Graded(sched, View(db, t), KeyOf(t, t.todo[0]), t.todo[0].review).Some?
    ensures var after := Graded(sched, View(db, t), KeyOf(t, t.todo[0]), t.todo[0].review).value.0;
            var id := t.todo[0].review.id;
            |db.log| <= |after.log|
            && var t' := Wrote(db, t, KeyOf(t, t.todo[0]), after);
            && t'.todo == t.todo[1..] && t'.wanted == t.wanted && t'.held == t.held && t'.done == t.done
            && (t'.log == t.log || (!Logged(db.log + t.log, id) && exists row: LogRow :: row.review.id == id && t'.log == t.log + [row]))
            && Logged(db.log + t'.log, id)
  {
    var v, p := View(db, t), t.todo[0];
    var after := Graded(sched, v, KeyOf(t, p), p.review).value.0;
    var t' := Wrote(db, t, KeyOf(t, p), after);
    if after.log == v.log {
      assert t'.log == t.log;
    } else {
      var row := after.log[|v.log|];
      assert after.log == v.log + [row];
      assert t'.log == t.log + [row];
      assert (db.log + t'.log)[|v.log|] == row;
    }
  }

  lemma LoggedConcat(a: seq<LogRow>, b: seq<LogRow>, id: Id)
    ensures Logged(a + b, id) <==> Logged(a, id) || Logged(b, id)
  {
    if Logged(a, id) {
      var i :| 0 <= i < |a| && a[i].review.id == id;
      assert (a + b)[i].review.id == id;
    }
    if Logged(b, id) {
      var i :| 0 <= i < |b| && b[i].review.id == id;
      assert (a + b)[|a| + i].review.id == id;
    }
  }

  lemma LoggedRow(row: LogRow, id: Id)
    ensures Logged([row], id) <==> row.review.id == id
  {
    assert [row][0] == row;
  }

  // ---- A common order of ids excludes deadlock ----

  lemma GradeKeepsIdInv(sched: Scheduler, rank: Rank, s: System, i: nat)
    requires IdInv(rank, s) && i < |s.txs| && CanGrade(s, i)
    ensures IdInv(rank, GradeNext(sched, s, i))
  {
    var t := s.txs[i];
    var s' := GradeNext(sched, s, i);
    var t' := s'.txs[i];
    if Graded(sched, View(s.db, t), KeyOf(t, t.todo[0]), t.todo[0].review).Some? {
      WroteLog(sched, s.db, t);
      hide *;
      WroteInOrder(rank, s, i, t');
    }
  }

  lemma WroteInOrder(rank: Rank, s: System, i: nat, t': Tx)
    requires IdInv(rank, s) && i < |s.txs| && CanGrade(s, i)
    requires var t, id := s.txs[i], s.txs[i].todo[0].review.id;
             && t'.todo == t.todo[1..] && t'.wanted == t.wanted && t'.held == t.held && t'.done == t.done
             && (t'.log == t.log || exists row: LogRow :: row.review.id == id && t'.log == t.log + [row])
    ensures IdInv(rank, s.(txs := s.txs[i := t']))
  {
    var t, id := s.txs[i], s.txs[i].todo[0].review.id;
    if t'.log != t.log {
      var row: LogRow :| row.review.id == id && t'.log == t.log + [row];
      hide Logged;
      forall x ensures Logged(t'.log, x) <==> Logged(t.log, x) || x == id {
        LoggedConcat(t.log, [row], x);
        LoggedRow(row, x);
      }
    }
  }

  lemma AcquireKeepsIdInv(rank: Rank, s: System, i: nat)
    requires IdInv(rank, s) && i < |s.txs| && CanAcquire(s, i)
    ensures IdInv(rank, Acquire(s, i))
  {
    var t, t' := s.txs[i], Acquire(s, i).txs[i];
    assert Disciplined(t);
    assert t.wanted == [t.wanted[0]] + t'.wanted;
    forall k | k in t'.wanted ensures t.wanted[0] < k && k in t.wanted {
      var n :| 0 <= n < |t'.wanted| && t'.wanted[n] == k;
      assert t.wanted[n + 1] == k;
    }
  }

  lemma NextKeepsIdInv(sched: Scheduler, rank: Rank, s: System, s': System)
    requires IdInv(rank, s) && Next(sched, s, s')
    ensures IdInv(rank, s')
  {
    if i: nat :| TxStep(sched, s, s', i) {
      if CanAcquire(s, i) && s' == Acquire(s, i) {
        AcquireKeepsIdInv(rank, s, i);
      } else if CanGrade(s, i) && s' == GradeNext(sched, s, i) {
        GradeKeepsIdInv(sched, rank, s, i);
      } else {
        assert s'.txs == s.txs[i := Ended(s.txs[i])];
      }
    }
  }

  // The transaction about to grade the highest-ranking id.
  lemma HighestGrader(rank: Rank, txs: seq<Tx>, i: nat) returns (m: nat)
    requires i < |txs| && AtGrade(txs[i])
    ensures m < |txs| && AtGrade(txs[m])
    ensures forall j :: 0 <= j < |txs| && AtGrade(txs[j]) ==>
              rank(txs[j].todo[0].review.id) <= rank(txs[m].todo[0].review.id)
  {
    m := i;
    for k := 0 to |txs|
      invariant m < |txs| && AtGrade(txs[m])
      invariant forall j :: 0 <= j < k && AtGrade(txs[j]) ==>
                  rank(txs[j].todo[0].review.id) <= rank(txs[m].todo[0].review.id)
    {
      if AtGrade(txs[k]) && rank(txs[k].todo[0].review.id) > rank(txs[m].todo[0].review.id) { m := k; }
    }
  }

  // Among graders, the one at the highest id or the holder of that id can go on.
  lemma GraderSteps(sched: Scheduler, rank: Rank, s: System, i: nat)
    requires Injective(rank) && IdInv(rank, s) && i < |s.txs| && AtGrade(s.txs[i])
    ensures exists j: nat, s' :: StepBy(sched, s, s', j)
  {
    var m := HighestGrader(rank, s.txs, i);
    if CanGrade(s, m) {
      assert StepBy(sched, s, GradeNext(sched, s, m), m);
    } else {
      hide InOrder;
      var k := HolderOf(s, m);
      if s.txs[k].todo == [] {
        assert StepBy(sched, s, Commit(s, k), k);
      } else {
        HolderGrades(rank, s, m, k);
        assert StepBy(sched, s, GradeNext(sched, s, k), k);
      }
    }
  }

  // Who holds the id that a transaction waits for.
  lemma HolderOf(s: System, m: nat) returns (k: nat)
    requires m < |s.txs| && AtGrade(s.txs[m]) && !CanGrade(s, m)
    requires forall i :: 0 <= i < |s.txs| ==> Disciplined(s.txs[i])
    ensures k < |s.txs| && k != m && Logged(s.txs[k].log, s.txs[m].todo[0].review.id)
    ensures !s.txs[k].done && s.txs[k].wanted == []
  {
    k :| 0 <= k < |s.txs| && k != m && Logged(s.txs[k].log, s.txs[m].todo[0].review.id);
    assert Disciplined(s.txs[k]);
  }

  // The holder's own next id cannot rank higher than what it holds, so it is that id.
  lemma HolderGrades(rank: Rank, s: System, m: nat, k: nat)
    requires Injective(rank) && IdInv(rank, s) && m < |s.txs| && k < |s.txs|
    requires AtGrade(s.txs[m]) && AtGrade(s.txs[k]) && Logged(s.txs[k].log, s.txs[m].todo[0].review.id)
    requires rank(s.txs[k].todo[0].review.id) <= rank(s.txs[m].todo[0].review.id)
    ensures CanGrade(s, k)
  {
    var u, id := s.txs[k], s.txs[m].todo[0].review.id;
    LogBelowTodo(rank, u, id);
    assert u.todo[0].review.id == id;
    hide InOrder, Disciplined, Logged;
    forall j | 0 <= j < |s.txs| && j != k ensures !Logged(s.txs[j].log, id) {
      assert Logged(u.log, id);
    }
  }

  lemma LogBelowTodo(rank: Rank, t: Tx, id: Id)
    requires InOrder(rank, t) && Logged(t.log, id) && t.todo != []
    ensures rank(id) <= rank(t.todo[0].review.id)
  {
    var l :| 0 <= l < |t.log| && t.log[l].review.id == id;
    assert rank(t.log[l].review.id) <= rank(t.todo[0].review.id);
  }

  /** Deadlock freedom for reused ids: when the batches use ids in a common order, some unfinished
      transaction can always step without rolling back, shared ids, repeated ids and colliding lock
      keys included. */
  lemma DeadlockFreeInOrder(sched: Scheduler, rank: Rank, s: System, i: nat)
    requires Injective(rank) && IdInv(rank, s)
    requires i < |s.txs| && !s.txs[i].done
    ensures exists j: nat, s' :: StepBy(sched, s, s', j)
  {
    if s.txs[i].wanted != [] {
      var m := HighestWaiter(s.txs, i);
      if CanAcquire(s, m) {
        assert StepBy(sched, s, Acquire(s, m), m);
      } else {
        var j :| 0 <= j < |s.txs| && j != m && s.txs[m].wanted[0] in s.txs[j].held;
        assert Disciplined(s.txs[j]);
        FirstElement(s.txs[j].wanted);
        assert s.txs[j].wanted == [];
        LockedSteps(sched, rank, s, j);
      }
    } else {
      LockedSteps(sched, rank, s, i);
    }
  }

  lemma LockedSteps(sched: Scheduler, rank: Rank, s: System, i: nat)
    requires Injective(rank) && IdInv(rank, s)
    requires i < |s.txs| && !s.txs[i].done && s.txs[i].wanted == []
    ensures exists j: nat, s' :: StepBy(sched, s, s', j)
  {
    if s.txs[i].todo == [] {
      assert StepBy(sched, s, Commit(s, i), i);
    } else {
      GraderSteps(sched, rank, s, i);
    }
  }

  lemma {:induction false} RunKeepsIdInv(sched: Scheduler, rank: Rank, trace: seq<System>, n: nat)
    requires IsRun(sched, trace) && n < |trace|
    requires forall i :: 0 <= i < |trace[0].txs| ==> Unbegun(trace[0].txs[i]) && InOrder(rank, trace[0].txs[i])
    ensures IdInv(rank, trace[n])
  {
    if n > 0 {
      RunKeepsIdInv(sched, rank, trace, n - 1);
      assert Next(sched, trace[n - 1], trace[n - 1 + 1]);
      NextKeepsIdInv(sched, rank, trace[n - 1], trace[n]);
    }
  }

  /** Over whole runs: batches that agree on an order of ids never stop each other. */
  lemma CommonOrderNeverStuck(sched: Scheduler, rank: Rank, trace: seq<System>, n: nat)
    requires Injective(rank) && IsRun(sched, trace) && n < |trace|
    requires forall i :: 0 <= i < |trace[0].txs| ==> Unbegun(trace[0].txs[i]) && InOrder(rank, trace[0].txs[i])
    ensures !Stuck(sched, trace[n])
  {
    RunKeepsIdInv(sched, rank, trace, n);
    if i :| 0 <= i < |trace[n].txs| && !trace[n].txs[i].done {
      DeadlockFreeInOrder(sched, rank, trace[n], i);
    }
  }

  // ---- Two batches: exactly when they can stop each other ----

  predicate Names(ps: seq<B.Pending>, id: Id) { exists n :: 0 <= n < |ps| && ps[n].review.id == id }

  // An id that is not committed yet and that the other batch will insert too.
  predicate Contested(log: seq<LogRow>, other: seq<B.Pending>, id: Id) { !Logged(log, id) && Names(other, id) }

  /** Where a batch first meets a contested id; its end if it meets none. */
  function FirstShared(log: seq<LogRow>, ps: seq<B.Pending>, other: seq<B.Pending>): (q: nat)
    ensures q <= |ps| && (q < |ps| ==> Contested(log, other, ps[q].review.id))
    ensures forall n :: 0 <= n < q ==> !Contested(log, other, ps[n].review.id)
  {
    if ps == [] || Contested(log, other, ps[0].review.id) then 0 else 1 + FirstShared(log, ps[1..], other)
  }

  // The two batches meet different contested ids first.
  predicate FirstsDiffer(log: seq<LogRow>, a: seq<B.Pending>, b: seq<B.Pending>) {
    var p, q := FirstShared(log, a, b), FirstShared(log, b, a);
    p < |a| && q < |b| && a[p].review.id != b[q].review.id
  }

  ghost predicate KeysApart(s: System)
    requires |s.txs| == 2
  {
    forall k :: !(k in s.txs[0].wanted && k in s.txs[1].wanted)
  }

  /** Two batches can stop each other: no lock key keeps them apart, and they meet different contested
      ids first. */
  ghost predicate CrossFirst(s: System)
    requires |s.txs| == 2
  {
    KeysApart(s) && FirstsDiffer(s.db.log, s.txs[0].todo, s.txs[1].todo)
  }

  // How far a transaction is from where it began, while nothing has been committed.
  ghost predicate Progress(log: seq<LogRow>, t0: Tx, t: Tx) {
    && |t.todo| <= |t0.todo| && t.todo == t0.todo[|t0.todo| - |t.todo|..]
    && (forall n :: 0 <= n < |t0.todo| - |t.todo| ==> Logged(log, t0.todo[n].review.id) || Logged(t.log, t0.todo[n].review.id))
    && (forall id :: Logged(t.log, id) ==> !Logged(log, id) && Names(t0.todo[..|t0.todo| - |t.todo|], id))
    && (forall k :: k in t0.wanted <==> k in t.held || k in t.wanted)
  }

  // Any order will do: only what it says of locks and uncommitted ids is used.
  const SOME_RANK: Rank := (id: Id) => 0

  ghost predicate TwoInv(s0: System, s: System) {
    && |s0.txs| == |s.txs| == 2 && IdInv(SOME_RANK, s) && s.txs[0].held !! s.txs[1].held
    && (BothRunning(s) ==> s.db.log == s0.db.log
                           && forall i :: 0 <= i < 2 ==> Progress(s0.db.log, s0.txs[i], s.txs[i]))
  }

  ghost predicate TwoUnbegun(s: System) {
    |s.txs| == 2 && Unbegun(s.txs[0]) && Unbegun(s.txs[1])
  }

  lemma BeginsTwo(s0: System)
    requires TwoUnbegun(s0)
    ensures TwoInv(s0, s0)
  {
  }

  lemma AcquireProgress(log: seq<LogRow>, t0: Tx, t: Tx, t': Tx)
    requires Progress(log, t0, t) && t.wanted != []
    requires t' == t.(held := t.held + {t.wanted[0]}, wanted := t.wanted[1..])
    ensures Progress(log, t0, t')
  {
    assert t.wanted == [t.wanted[0]] + t'.wanted;
  }

  lemma GradeProgress(sched: Scheduler, db: Db, t0: Tx, t: Tx)
    requires Progress(db.log, t0, t) && t.todo != []
    requires Graded(sched, View(db, t), KeyOf(t, t.todo[0]), t.todo[0].review).Some?
    ensures var after := Graded(sched, View(db, t), KeyOf(t, t.todo[0]), t.todo[0].review).value.0;
            |db.log| <= |after.log| && Progress(db.log, t0, Wrote(db, t, KeyOf(t, t.todo[0]), after))
  {
    WroteLog(sched, db, t);
    var after := Graded(sched, View(db, t), KeyOf(t, t.todo[0]), t.todo[0].review).value.0;
    var t' := Wrote(db, t, KeyOf(t, t.todo[0]), after);
    hide *;
    WroteProgress(db.log, t0, t, t');
  }

  lemma WroteProgress(log: seq<LogRow>, t0: Tx, t: Tx, t': Tx)
    requires Progress(log, t0, t) && t.todo != []
    requires t'.todo == t.todo[1..] && t'.wanted == t.wanted && t'.held == t.held
    requires var id := t.todo[0].review.id;
             && (t'.log == t.log || (!Logged(log + t.log, id) && exists row: LogRow :: row.review.id == id && t'.log == t.log + [row]))
             && Logged(log + t'.log, id)
    ensures Progress(log, t0, t')
  {
    hide Logged;
    var p, id := |t0.todo| - |t.todo|, t.todo[0].review.id;
    assert t0.todo[p].review.id == id;
    LoggedConcat(log, t.log, id);
    LoggedConcat(log, t'.log, id);
    forall x ensures Logged(t'.log, x) <==> Logged(t.log, x) || (t'.log != t.log && x == id) {
      if t'.log != t.log {
        var row: LogRow :| row.review.id == id && t'.log == t.log + [row];
        LoggedConcat(t.log, [row], x);
        LoggedRow(row, x);
      }
    }
    forall x | Logged(t'.log, x) ensures Names(t0.todo[..p + 1], x) {
      if Logged(t.log, x) {
        NamesMore(t0.todo, p, x);
      } else {
        assert t0.todo[..p + 1][p].review.id == x;
      }
    }
  }

  lemma NamesMore(ps: seq<B.Pending>, p: nat, id: Id)
    requires p < |ps| && Names(ps[..p], id)
    ensures Names(ps[..p + 1], id)
  {
    var n :| 0 <= n < p && ps[..p][n].review.id == id;
    assert ps[..p + 1][n].review.id == id;
  }

  lemma NextKeepsTwoInv(sched: Scheduler, s0: System, s: System, s': System)
    requires TwoInv(s0, s) && Next(sched, s, s')
    ensures TwoInv(s0, s')
  {
    NextKeepsIdInv(sched, SOME_RANK, s, s');
    if i: nat :| TxStep(sched, s, s', i) {
      StepKeepsTwoInv(sched, s0, s, s', i);
    }
  }

  lemma StepKeepsTwoInv(sched: Scheduler, s0: System, s: System, s': System, i: nat)
    requires TwoInv(s0, s) && TxStep(sched, s, s', i) && IdInv(SOME_RANK, s')
    ensures TwoInv(s0, s')
  {
    hide IdInv, Progress, Graded;
    var t := s.txs[i];
    if CanAcquire(s, i) && s' == Acquire(s, i) {
      assert t.wanted[0] !in s.txs[1 - i].held;
      if BothRunning(s) { AcquireProgress(s0.db.log, s0.txs[i], t, s'.txs[i]); }
    } else if CanGrade(s, i) && s' == GradeNext(sched, s, i) {
      if BothRunning(s) && Graded(sched, View(s.db, t), KeyOf(t, t.todo[0]), t.todo[0].review).Some? {
        GradeProgress(sched, s.db, s0.txs[i], t);
      }
    }
  }

  lemma {:induction false} RunKeepsTwoInv(sched: Scheduler, trace: seq<System>, n: nat)
    requires IsRun(sched, trace) && n < |trace| && TwoUnbegun(trace[0])
    ensures TwoInv(trace[0], trace[n])
  {
    if n == 0 {
      BeginsTwo(trace[0]);
    } else {
      RunKeepsTwoInv(sched, trace, n - 1);
      assert Next(sched, trace[n - 1], trace[n - 1 + 1]);
      NextKeepsTwoInv(sched, trace[0], trace[n - 1], trace[n]);
    }
  }

  lemma StuckBothWait(sched: Scheduler, s0: System, s: System)
    requires TwoInv(s0, s) && Stuck(sched, s)
    ensures BothRunning(s) && WaitsFor(s.txs[0], s.txs[1]) && WaitsFor(s.txs[1], s.txs[0])
  {
    forall i: nat, s' ensures !StepBy(sched, s, s', i) {}
    forall i | 0 <= i < 2 ensures Disciplined(s.txs[i]) && BlockedAt(s, i) {
      assert CanAcquire(s, i) ==> StepBy(sched, s, Acquire(s, i), i);
      assert CanGrade(s, i) ==> StepBy(sched, s, GradeNext(sched, s, i), i);
      assert CanCommit(s, i) ==> StepBy(sched, s, Commit(s, i), i);
    }
    hide Stuck, StepBy, TwoInv;
    BothWait(s);
  }

  lemma BothWait(s: System)
    requires |s.txs| == 2 && Disciplined(s.txs[0]) && Disciplined(s.txs[1])
    requires BlockedAt(s, 0) && BlockedAt(s, 1) && !(s.txs[0].done && s.txs[1].done)
    ensures BothRunning(s) && WaitsFor(s.txs[0], s.txs[1]) && WaitsFor(s.txs[1], s.txs[0])
  {
    BlockedBy(s, 0);
    BlockedBy(s, 1);
    FirstElement(s.txs[0].wanted);
    FirstElement(s.txs[1].wanted);
  }

  // A blocked transaction waits for a key the other holds, or for an id it inserted.
  lemma BlockedBy(s: System, i: nat)
    requires |s.txs| == 2 && i < 2 && BlockedAt(s, i) && !s.txs[i].done
    ensures var t, u := s.txs[i], s.txs[1 - i];
            if t.wanted != [] then t.wanted[0] in u.held else WaitsFor(t, u)
  {
  }

  lemma NamesIn(ps: seq<B.Pending>, q: nat, id: Id)
    requires q <= |ps| && Names(ps[..q], id)
    ensures exists n :: 0 <= n < q && ps[n].review.id == id
  {
    var n :| 0 <= n < q && ps[..q][n].review.id == id;
    assert ps[n].review.id == id;
  }

  // What a batch waits for is contested, so the other one has met a contested id already.
  lemma HeldIsContested(log: seq<LogRow>, t0: Tx, t: Tx, u0: Tx, u: Tx)
    requires Progress(log, t0, t) && Progress(log, u0, u) && WaitsFor(t, u)
    ensures var q := FirstShared(log, u0.todo, t0.todo);
            q < |u0.todo| - |u.todo| && Logged(u.log, u0.todo[q].review.id)
  {
    var id := t.todo[0].review.id;
    assert t0.todo[|t0.todo| - |t.todo|] == t.todo[0];
    assert Names(t0.todo, id) && !Logged(log, id);
    NamesIn(u0.todo, |u0.todo| - |u.todo|, id);
    assert Contested(log, t0.todo, id);
  }

  /** One half: whatever the schedulers do, only batches that meet different contested ids first stop
      each other. */
  lemma StuckCrossesFirst(sched: Scheduler, s0: System, s: System)
    requires TwoUnbegun(s0) && TwoInv(s0, s) && Stuck(sched, s)
    ensures CrossFirst(s0)
  {
    StuckBothWait(sched, s0, s);
    hide Stuck, Logged, FirstShared, Contested, Names, WaitsFor;
    var a0, b0, a, b := s0.txs[0], s0.txs[1], s.txs[0], s.txs[1];
    HeldIsContested(s0.db.log, a0, a, b0, b);
    HeldIsContested(s0.db.log, b0, b, a0, a);
    assert LogsApart(s);
    forall k ensures !(k in a0.wanted && k in b0.wanted) {
      assert Progress(s0.db.log, a0, a) && Progress(s0.db.log, b0, b);
    }
  }

  // ---- And then they can ----

  ghost predicate Total(sched: Scheduler) { forall k, c, r, at :: sched(k, c, r, at).Some? }

  lemma {:induction false} FoldTotal(sched: Scheduler, key: Key, rows: seq<Review>)
    requires Total(sched)
    ensures Fold(sched, key, rows).Some?
  {
    if rows != [] { FoldTotal(sched, key, rows[..|rows| - 1]); }
  }

  lemma GradedTotal(sched: Scheduler, db: Db, key: Key, ev: Review)
    requires Total(sched)
    ensures Graded(sched, db, key, ev).Some?
  {
    var rows := Listing(db.log, key);
    var merged := Insert(rows, ev);
    FoldTotal(sched, key, rows[..InsertPos(rows, ev)]);
    FoldTotal(sched, key, merged[..|merged| - 1]);
    FoldTotal(sched, key, merged);
  }

  ghost predicate Reaches(sched: Scheduler, s0: System, s: System) {
    exists trace :: IsRun(sched, trace) && trace[0] == s0 && trace[|trace| - 1] == s
  }

  lemma ReachesSelf(sched: Scheduler, s0: System)
    ensures Reaches(sched, s0, s0)
  {
    assert IsRun(sched, [s0]);
  }

  lemma ReachesStep(sched: Scheduler, s0: System, s: System, s': System, i: nat)
    requires Reaches(sched, s0, s) && StepBy(sched, s, s', i)
    ensures Reaches(sched, s0, s')
  {
    hide StepBy;
    var trace :| IsRun(sched, trace) && trace[0] == s0 && trace[|trace| - 1] == s;
    var longer := trace + [s'];
    assert TxStep(sched, s, s', i);
    forall n | 0 <= n < |longer| - 1 ensures Next(sched, longer[n], longer[n + 1]) {
      if n < |trace| - 1 { assert Next(sched, trace[n], trace[n + 1]); }
    }
    assert IsRun(sched, longer);
  }

  // A point of a run from s0 at which both batches are under way.
  ghost predicate Under(sched: Scheduler, s0: System, s: System): (under: bool)
    ensures under ==> |s0.txs| == |s.txs| == 2
  {
    Reaches(sched, s0, s) && TwoInv(s0, s) && BothRunning(s)
  }

  function At(s0: System, s: System, i: nat): int
    requires i < |s0.txs| && i < |s.txs|
  {
    |s0.txs[i].todo| - |s.txs[i].todo|
  }

  lemma StepUnder(sched: Scheduler, s0: System, s: System, s': System, i: nat)
    requires Under(sched, s0, s) && StepBy(sched, s, s', i) && BothRunning(s')
    ensures Under(sched, s0, s')
  {
    hide StepBy, TwoInv;
    ReachesStep(sched, s0, s, s', i);
    assert TxStep(sched, s, s', i) && Next(sched, s, s');
    NextKeepsTwoInv(sched, s0, s, s');
  }

  lemma UnderProgress(sched: Scheduler, s0: System, s: System, i: nat)
    requires Under(sched, s0, s) && i < 2
    ensures |s0.txs| == |s.txs| == 2 && !s.txs[i].done && Progress(s0.db.log, s0.txs[i], s.txs[i])
  {
    hide IdInv, Progress, Reaches;
  }

  lemma LockOne(sched: Scheduler, s0: System, s: System, i: nat)
    requires Under(sched, s0, s) && i < 2 && s.txs[i].wanted != []
    requires KeysApart(s0)
    ensures CanAcquire(s, i) && Under(sched, s0, Acquire(s, i))
  {
    hide Under, Progress, StepBy;
    UnderProgress(sched, s0, s, i);
    UnderProgress(sched, s0, s, 1 - i);
    var k := s.txs[i].wanted[0];
    FirstElement(s.txs[i].wanted);
    HeldWasWanted(s0.db.log, s0.txs[i], s.txs[i], k);
    HeldWasWanted(s0.db.log, s0.txs[1 - i], s.txs[1 - i], k);
    assert !(k in s0.txs[0].wanted && k in s0.txs[1].wanted);
    assert CanAcquire(s, i);
    AcquireSteps(sched, s, i);
    StepUnder(sched, s0, s, Acquire(s, i), i);
  }

  lemma AcquireSteps(sched: Scheduler, s: System, i: nat)
    requires i < |s.txs| && CanAcquire(s, i)
    ensures StepBy(sched, s, Acquire(s, i), i)
  {
    hide Acquire, CanGrade, CanCommit;
  }

  lemma HeldWasWanted(log: seq<LogRow>, t0: Tx, t: Tx, k: int)
    requires Progress(log, t0, t)
    ensures k in t.held || k in t.wanted ==> k in t0.wanted
  {
  }

  // A batch whose keys the other does not want takes them all.
  lemma {:induction false} LockAll(sched: Scheduler, s0: System, s: System, i: nat) returns (s': System)
    requires Under(sched, s0, s) && i < 2
    requires KeysApart(s0)
    ensures Under(sched, s0, s') && s'.txs[1 - i] == s.txs[1 - i]
    ensures s'.txs[i].wanted == [] && s'.txs[i].todo == s.txs[i].todo
    decreases |s.txs[i].wanted|
  {
    hide TwoInv, Reaches;
    if s.txs[i].wanted == [] {
      s' := s;
    } else {
      LockOne(sched, s0, s, i);
      s' := LockAll(sched, s0, Acquire(s, i), i);
    }
  }

  lemma GradeOne(sched: Scheduler, s0: System, s: System, i: nat) returns (s': System)
    requires Total(sched) && Under(sched, s0, s) && i < 2 && s.txs[i].wanted == []
    requires 0 <= At(s0, s, i) < |s0.txs[i].todo|
    requires !Logged(s.txs[1 - i].log, s0.txs[i].todo[At(s0, s, i)].review.id)
    ensures Under(sched, s0, s') && s'.txs[1 - i] == s.txs[1 - i]
    ensures s'.txs[i].wanted == [] && At(s0, s', i) == At(s0, s, i) + 1
  {
    hide Under, Total, Progress, Logged, StepBy;
    UnderProgress(sched, s0, s, i);
    UnderProgress(sched, s0, s, 1 - i);
    NextEvent(s0.db.log, s0.txs[i], s.txs[i]);
    s' := GradeSteps(sched, s, i);
    StepUnder(sched, s0, s, s', i);
  }

  lemma GradeSteps(sched: Scheduler, s: System, i: nat) returns (s': System)
    requires Total(sched) && |s.txs| == 2 && i < 2 && CanGrade(s, i)
    ensures StepBy(sched, s, s', i) && |s'.txs| == 2 && s'.txs[1 - i] == s.txs[1 - i]
    ensures !s'.txs[i].done && s'.txs[i].wanted == [] && s'.txs[i].todo == s.txs[i].todo[1..]
  {
    var t := s.txs[i];
    GradedTotal(sched, View(s.db, t), KeyOf(t, t.todo[0]), t.todo[0].review);
    hide Total, Graded, View, CanAcquire, CanCommit;
    s' := GradeNext(sched, s, i);
  }

  lemma NextEvent(log: seq<LogRow>, t0: Tx, t: Tx)
    requires Progress(log, t0, t) && t.todo != []
    ensures t0.todo[|t0.todo| - |t.todo|] == t.todo[0]
  {
  }

  // A batch runs on to its event q, meeting no uncommitted row of the other.
  lemma {:induction false} RunTo(sched: Scheduler, s0: System, s: System, i: nat, q: nat) returns (s': System)
    requires Total(sched) && Under(sched, s0, s) && i < 2 && s.txs[i].wanted == []
    requires 0 <= At(s0, s, i) <= q <= |s0.txs[i].todo|
    requires forall n :: At(s0, s, i) <= n < q ==> !Logged(s.txs[1 - i].log, s0.txs[i].todo[n].review.id)
    ensures Under(sched, s0, s') && s'.txs[1 - i] == s.txs[1 - i]
    ensures s'.txs[i].wanted == [] && At(s0, s', i) == q
    decreases q - At(s0, s, i)
  {
    hide Under, Total, Logged;
    UnderProgress(sched, s0, s, i);
    if At(s0, s, i) == q {
      s' := s;
    } else {
      var next := GradeOne(sched, s0, s, i);
      s' := RunTo(sched, s0, next, i, q);
    }
  }

  // It runs on until it waits for the other, which holds the id of its event m.
  lemma RunToWait(sched: Scheduler, s0: System, s: System, i: nat, m: nat) returns (s': System)
    requires Total(sched) && Under(sched, s0, s) && i < 2 && s.txs[i].wanted == []
    requires 0 <= At(s0, s, i) <= m < |s0.txs[i].todo|
    requires Logged(s.txs[1 - i].log, s0.txs[i].todo[m].review.id)
    ensures Under(sched, s0, s') && s'.txs[1 - i] == s.txs[1 - i]
    ensures At(s0, s, i) <= At(s0, s', i) && WaitsFor(s'.txs[i], s'.txs[1 - i])
  {
    hide Under, Total, Logged, Progress;
    UnderProgress(sched, s0, s, i);
    var q := At(s0, s, i);
    while !Logged(s.txs[1 - i].log, s0.txs[i].todo[q].review.id)
      invariant At(s0, s, i) <= q <= m
      invariant forall n :: At(s0, s, i) <= n < q ==> !Logged(s.txs[1 - i].log, s0.txs[i].todo[n].review.id)
      decreases m - q
    {
      q := q + 1;
    }
    s' := RunTo(sched, s0, s, i, q);
    UnderProgress(sched, s0, s', i);
    NextEvent(s0.db.log, s0.txs[i], s'.txs[i]);
  }

  // Once past its first contested event, a batch holds that id.
  lemma HoldsFirst(log: seq<LogRow>, t0: Tx, t: Tx, other: seq<B.Pending>)
    requires Progress(log, t0, t)
    requires FirstShared(log, t0.todo, other) < |t0.todo| - |t.todo|
    ensures Logged(t.log, t0.todo[FirstShared(log, t0.todo, other)].review.id)
  {
  }

  // Up to there, no id of its log is contested but that one.
  lemma HoldsOnlyFirst(log: seq<LogRow>, t0: Tx, t: Tx, other: seq<B.Pending>, id: Id)
    requires Progress(log, t0, t) && Logged(t.log, id) && Names(other, id)
    requires |t0.todo| - |t.todo| <= FirstShared(log, t0.todo, other) + 1
    ensures FirstShared(log, t0.todo, other) < |t0.todo| && id == t0.todo[FirstShared(log, t0.todo, other)].review.id
  {
    hide FirstShared;
    NamesIn(t0.todo, |t0.todo| - |t.todo|, id);
    var n :| 0 <= n < |t0.todo| - |t.todo| && t0.todo[n].review.id == id;
    assert Contested(log, other, id);
  }

  // What a batch holds it goes on holding.
  lemma HoldsOn(log: seq<LogRow>, t0: Tx, t: Tx, t': Tx, id: Id)
    requires Progress(log, t0, t) && Progress(log, t0, t') && |t'.todo| <= |t.todo| && Logged(t.log, id)
    ensures Logged(t'.log, id)
  {
    NamesIn(t0.todo, |t0.todo| - |t.todo|, id);
  }

  // Where a batch meets the contested id that the other met first, if that is not its own first.
  lemma LaterShared(log: seq<LogRow>, a: seq<B.Pending>, b: seq<B.Pending>) returns (m: nat)
    requires FirstsDiffer(log, a, b)
    ensures FirstShared(log, a, b) < m < |a| && a[m].review.id == b[FirstShared(log, b, a)].review.id
  {
    var id := b[FirstShared(log, b, a)].review.id;
    assert Contested(log, a, id);
    m :| 0 <= m < |a| && a[m].review.id == id;
    assert Names(b, id) && Contested(log, b, id);
  }

  // Both batches hold all their locks and have graded nothing.
  lemma BothLocked(sched: Scheduler, s0: System) returns (s: System)
    requires TwoUnbegun(s0) && KeysApart(s0)
    ensures Under(sched, s0, s) && s.txs[0].wanted == s.txs[1].wanted == []
    ensures s.txs[0].todo == s0.txs[0].todo && s.txs[1].todo == s0.txs[1].todo
  {
    hide *;
    Begins(sched, s0);
    s := LockAll(sched, s0, s0, 0);
    s := LockAll(sched, s0, s, 1);
  }

  lemma Begins(sched: Scheduler, s0: System)
    requires TwoUnbegun(s0)
    ensures Under(sched, s0, s0)
  {
    ReachesSelf(sched, s0);
    BeginsTwo(s0);
    hide TwoInv, Reaches;
  }

  // What a batch at most just past its first contested event holds is not what the other meets up to
  // its own first.
  lemma NotHeldYet(log: seq<LogRow>, a: seq<B.Pending>, b0: Tx, b: Tx, n: nat)
    requires FirstsDiffer(log, a, b0.todo) && Progress(log, b0, b) && n <= FirstShared(log, a, b0.todo)
    requires |b0.todo| - |b.todo| <= FirstShared(log, b0.todo, a) + 1
    ensures !Logged(b.log, a[n].review.id)
  {
    var id := a[n].review.id;
    if Logged(b.log, id) {
      assert Names(a, id);
      HoldsOnlyFirst(log, b0, b, a, id);
    }
  }

  // A batch that has graded nothing runs to just behind its first contested event.
  lemma RunToFirst(sched: Scheduler, s0: System, s: System, i: nat) returns (s': System)
    requires Total(sched) && i < 2 && Under(sched, s0, s)
    requires FirstsDiffer(s0.db.log, s0.txs[i].todo, s0.txs[1 - i].todo)
    requires s.txs[i].wanted == [] && At(s0, s, i) == 0
    requires At(s0, s, 1 - i) <= FirstShared(s0.db.log, s0.txs[1 - i].todo, s0.txs[i].todo) + 1
    ensures Under(sched, s0, s') && s'.txs[1 - i] == s.txs[1 - i] && s'.txs[i].wanted == []
    ensures At(s0, s', i) == FirstShared(s0.db.log, s0.txs[i].todo, s0.txs[1 - i].todo) + 1
  {
    var log, a, b := s0.db.log, s0.txs[i].todo, s0.txs[1 - i].todo;
    var q := FirstShared(log, a, b) + 1;
    assert q <= |a|;
    hide Under, FirstShared, Total, FirstsDiffer, Logged, Progress;
    UnderProgress(sched, s0, s, 1 - i);
    forall n: nat | n < q ensures !Logged(s.txs[1 - i].log, a[n].review.id) {
      NotHeldYet(log, a, s0.txs[1 - i], s.txs[1 - i], n);
    }
    s' := RunTo(sched, s0, s, i, q);
  }

  lemma FirstsDifferBoth(log: seq<LogRow>, a: seq<B.Pending>, b: seq<B.Pending>)
    requires FirstsDiffer(log, a, b)
    ensures FirstsDiffer(log, b, a)
  {
  }

  // Both stand just behind their first contested events.
  lemma BothFirst(sched: Scheduler, s0: System) returns (s: System)
    requires Total(sched) && TwoUnbegun(s0) && CrossFirst(s0)
    ensures Under(sched, s0, s) && s.txs[0].wanted == s.txs[1].wanted == []
    ensures At(s0, s, 0) == FirstShared(s0.db.log, s0.txs[0].todo, s0.txs[1].todo) + 1
    ensures At(s0, s, 1) == FirstShared(s0.db.log, s0.txs[1].todo, s0.txs[0].todo) + 1
  {
    hide Under, FirstShared, Total, FirstsDiffer, KeysApart, Unbegun;
    FirstsDifferBoth(s0.db.log, s0.txs[0].todo, s0.txs[1].todo);
    s := BothLocked(sched, s0);
    s := RunToFirst(sched, s0, s, 0);
    s := RunToFirst(sched, s0, s, 1);
  }

  // Behind its first contested event, a batch runs on until it waits for the other's.
  lemma RunToOthers(sched: Scheduler, s0: System, s: System, i: nat) returns (s': System)
    requires Total(sched) && i < 2 && Under(sched, s0, s) && s.txs[i].wanted == []
    requires FirstsDiffer(s0.db.log, s0.txs[i].todo, s0.txs[1 - i].todo)
    requires At(s0, s, i) == FirstShared(s0.db.log, s0.txs[i].todo, s0.txs[1 - i].todo) + 1
    requires At(s0, s, 1 - i) > FirstShared(s0.db.log, s0.txs[1 - i].todo, s0.txs[i].todo)
    ensures Under(sched, s0, s') && s'.txs[1 - i] == s.txs[1 - i]
    ensures At(s0, s, i) <= At(s0, s', i) && WaitsFor(s'.txs[i], s'.txs[1 - i])
    ensures forall id :: Logged(s.txs[i].log, id) ==> Logged(s'.txs[i].log, id)
  {
    hide Under, Total, Logged, Progress;
    var log, t0, u0 := s0.db.log, s0.txs[i], s0.txs[1 - i];
    UnderProgress(sched, s0, s, i);
    UnderProgress(sched, s0, s, 1 - i);
    HoldsFirst(log, u0, s.txs[1 - i], t0.todo);
    var m := LaterShared(log, t0.todo, u0.todo);
    hide FirstsDiffer, FirstShared;
    s' := RunToWait(sched, s0, s, i, m);
    UnderProgress(sched, s0, s', i);
    forall id | Logged(s.txs[i].log, id) ensures Logged(s'.txs[i].log, id) {
      HoldsOn(log, t0, s.txs[i], s'.txs[i], id);
    }
  }

  /** The other half: under a scheduler that always answers, they do. */
  lemma CrossFirstSticks(sched: Scheduler, s0: System) returns (s: System)
    requires Total(sched) && TwoUnbegun(s0) && CrossFirst(s0)
    ensures Reaches(sched, s0, s) && Stuck(sched, s)
  {
    hide Under, Total, Reaches, Stuck, CrossFirst, TwoUnbegun, FirstShared, FirstsDiffer, WaitsFor, Logged;
    s := BothFirst(sched, s0);
    CrossFirstOf(s0);
    s := RunToOthers(sched, s0, s, 0);
    var t, u := s.txs[0], s.txs[1];
    s := RunToOthers(sched, s0, s, 1);
    WaitsOn(t, u, s.txs[1]);
    UnderRuns(sched, s0, s);
    WaitersAreStuck(sched, s);
  }

  lemma CrossFirstOf(s: System)
    requires |s.txs| == 2 && CrossFirst(s)
    ensures FirstsDiffer(s.db.log, s.txs[0].todo, s.txs[1].todo) && FirstsDiffer(s.db.log, s.txs[1].todo, s.txs[0].todo)
  {
  }

  lemma UnderRuns(sched: Scheduler, s0: System, s: System)
    requires Under(sched, s0, s)
    ensures Reaches(sched, s0, s) && BothRunning(s)
  {
    hide Reaches, TwoInv;
  }

  lemma WaitsOn(t: Tx, u: Tx, u': Tx)
    requires WaitsFor(t, u) && forall id :: Logged(u.log, id) ==> Logged(u'.log, id)
    ensures WaitsFor(t, u')
  {
  }

  /** Two batches can stop each other exactly when no lock key keeps them apart and they meet different
      contested ids first: ids shared in opposite orders are no danger behind a common first one. */
  lemma TwoBatchesStickExactly(sched: Scheduler, s0: System)
    requires Total(sched) && TwoUnbegun(s0)
    ensures (exists s :: Reaches(sched, s0, s) && Stuck(sched, s)) <==> CrossFirst(s0)
  {
    if CrossFirst(s0) {
      var s := CrossFirstSticks(sched, s0);
    }
    forall s | Reaches(sched, s0, s) && Stuck(sched, s) ensures CrossFirst(s0) {
      var trace :| IsRun(sched, trace) && trace[0] == s0 && trace[|trace| - 1] == s;
      RunKeepsTwoInv(sched, trace, |trace| - 1);
      StuckCrossesFirst(sched, s0, s);
    }
  }

  // Two batches that share three ids, the last two in opposite orders.
  function Opposed(): System {
    System(Db([], map[]),
           [Tx(7, [1], {}, [B.Pending(1, Review(1, 3, 10)), B.Pending(1, Review(2, 3, 20)), B.Pending(1, Review(3, 3, 30))],
               [], map[], false),
            Tx(7, [2], {}, [B.Pending(2, Review(1, 3, 10)), B.Pending(2, Review(3, 3, 20)), B.Pending(2, Review(2, 3, 30))],
               [], map[], false)])
  }

  /** They never stop each other: whoever inserts the common first id keeps the other from the rest. */
  lemma OppositeOrdersNeverStuck(sched: Scheduler, trace: seq<System>, n: nat)
    requires IsRun(sched, trace) && n < |trace| && trace[0] == Opposed()
    ensures !Stuck(sched, trace[n])
  {
    var s0 := Opposed();
    assert TwoUnbegun(s0);
    assert !CrossFirst(s0) by {
      assert s0.txs[1].todo[0].review.id == 1 && Contested([], s0.txs[1].todo, 1);
      assert s0.txs[0].todo[0].review.id == 1 && Contested([], s0.txs[0].todo, 1);
    }
    RunKeepsTwoInv(sched, trace, n);
    hide *;
    if Stuck(sched, trace[n]) { StuckCrossesFirst(sched, s0, trace[n]); }
  }
}
