/** Concurrent batches. Every transaction takes its lock keys in ascending order, one at a time,
    holds them to commit, and grades its events on the committed tables plus its own uncommitted
    rows; settings writes go on beside them without a lock (internal/review/lock.go,
    internal/review/grade.go, internal/db/user_card_state.sql.go). */
module LockProtocol {
  import opened Wrappers
  import opened ReviewLog
  import opened Grading
  import B = GradeBatch
  import C = Convergence

  // `wanted` are the lock keys still to take, `todo` the events still to grade, `log` and `states`
  // the rows this transaction wrote and has not committed.
  datatype Tx = Tx(
    user: Id, wanted: seq<int>, held: set<int>, todo: seq<B.Pending>,
    log: seq<LogRow>, states: map<Key, StateRow>, done: bool)

  datatype System = System(db: Db, txs: seq<Tx>)

  function View(db: Db, t: Tx): Db {
    Db(db.log + t.log, db.states + t.states)
  }

  function Ended(t: Tx): Tx {
    t.(held := {}, log := [], states := map[], done := true)
  }

  function KeyOf(t: Tx, p: B.Pending): Key { Key(t.user, p.card) }

  // What one grade adds to a transaction's own rows.
  function Wrote(db: Db, t: Tx, key: Key, after: Db): Tx
    requires |db.log| <= |after.log|
  {
    t.(todo := if t.todo == [] then [] else t.todo[1..], log := after.log[|db.log|..],
       states := if key in after.states then t.states[key := after.states[key]] else t.states)
  }

  predicate CanAcquire(s: System, i: nat)
    requires i < |s.txs|
  {
    var t := s.txs[i];
    && !t.done && t.wanted != []
    && forall j :: 0 <= j < |s.txs| && j != i ==> t.wanted[0] !in s.txs[j].held
  }

  // review_log.id is a global key: an insert waits for an uncommitted row with the same id.
  predicate CanGrade(s: System, i: nat)
    requires i < |s.txs|
  {
    var t := s.txs[i];
    && !t.done && t.wanted == [] && t.todo != []
    && forall j :: 0 <= j < |s.txs| && j != i ==> !Logged(s.txs[j].log, t.todo[0].review.id)
  }

  predicate CanCommit(s: System, i: nat)
    requires i < |s.txs|
  {
    var t := s.txs[i];
    !t.done && t.wanted == [] && t.todo == []
  }

  function Acquire(s: System, i: nat): System
    requires i < |s.txs| && CanAcquire(s, i)
  {
    var t := s.txs[i];
    s.(txs := s.txs[i := t.(held := t.held + {t.wanted[0]}, wanted := t.wanted[1..])])
  }

  // A scheduling error ends the transaction without a trace.
  function GradeNext(sched: Scheduler, s: System, i: nat): System
    requires i < |s.txs| && CanGrade(s, i)
  {
    var t := s.txs[i];
    var key := KeyOf(t, t.todo[0]);
    match Graded(sched, View(s.db, t), key, t.todo[0].review)
    case None => s.(txs := s.txs[i := Ended(t)])
    case Some(r) =>
      assert |s.db.log| <= |r.0.log|;
      s.(txs := s.txs[i := Wrote(s.db, t, key, r.0)])
  }

  function Commit(s: System, i: nat): System
    requires i < |s.txs| && CanCommit(s, i)
  {
    System(View(s.db, s.txs[i]), s.txs[i := Ended(s.txs[i])])
  }

  // A rollback for any reason: lost client, failed query, deadlock victim.
  function Abort(s: System, i: nat): System
    requires i < |s.txs|
  {
    s.(txs := s.txs[i := Ended(s.txs[i])])
  }

  ghost predicate StepBy(sched: Scheduler, s: System, s': System, i: nat) {
    && i < |s.txs|
    && ((CanAcquire(s, i) && s' == Acquire(s, i))
        || (CanGrade(s, i) && s' == GradeNext(sched, s, i))
        || (CanCommit(s, i) && s' == Commit(s, i)))
  }

  ghost predicate TxStep(sched: Scheduler, s: System, s': System, i: nat) {
    StepBy(sched, s, s', i) || (i < |s.txs| && !s.txs[i].done && s' == Abort(s, i))
  }

  // Suspending, burying or flagging: one statement that takes no lock of the protocol and commits on
  // its own, waiting only for an uncommitted write of the same row.
  ghost predicate SettingsStep(s: System, s': System, key: Key, now: Instant, settings: Settings) {
    && (forall i :: 0 <= i < |s.txs| ==> key !in s.txs[i].states)
    && s' == s.(db := C.SettingsWritten(s.db, key, now, settings))
  }

  ghost predicate Next(sched: Scheduler, s: System, s': System) {
    || (exists i: nat :: TxStep(sched, s, s', i))
    || exists key, now, settings :: SettingsStep(s, s', key, now, settings)
  }

  ghost predicate IsRun(sched: Scheduler, trace: seq<System>) {
    trace != [] && forall n :: 0 <= n < |trace| - 1 ==> Next(sched, trace[n], trace[n + 1])
  }

  // Which review an id names. No id is used for two cards, no card has two reviews at one instant.
  datatype Named = Named(key: Key, review: Review)

  type Book = map<Id, Named>

  ghost predicate WellNamed(book: Book) {
    && (forall id :: id in book ==> book[id].review.id == id)
    && (forall x, y | x in book && y in book ::
          book[x].key == book[y].key && book[x].review.at == book[y].review.at ==> x == y)
  }

  ghost predicate InBook(book: Book, key: Key, r: Review) {
    r.id in book && book[r.id] == Named(key, r)
  }

  ghost predicate RowsIn(book: Book, log: seq<LogRow>) {
    forall i :: 0 <= i < |log| ==> InBook(book, log[i].key, log[i].review)
  }

  // A transaction's own discipline: ascending keys, and writes only under its locks.
  ghost predicate TxOk(lockKey: Key -> int, book: Book, t: Tx) {
    && B.Ascending(t.wanted)
    && (forall h, k :: h in t.held && k in t.wanted ==> h < k)
    && (forall p :: p in t.todo ==>
          && InBook(book, KeyOf(t, p), p.review)
          && (!t.done ==> lockKey(KeyOf(t, p)) in t.held || lockKey(KeyOf(t, p)) in t.wanted))
    && RowsIn(book, t.log)
    && (forall i :: 0 <= i < |t.log| ==> lockKey(t.log[i].key) in t.held)
    && (forall k :: k in t.states ==> lockKey(k) in t.held)
    && (t.done ==> t.held == {} && t.log == [] && t.states == map[])
  }

  ghost predicate Exclusive(s: System) {
    forall i, j :: 0 <= i < j < |s.txs| ==> s.txs[i].held !! s.txs[j].held
  }

  ghost predicate Inv(sched: Scheduler, lockKey: Key -> int, book: Book, s: System) {
    && Coherent(sched, s.db) && RowsIn(book, s.db.log)
    && Exclusive(s)
    && (forall i :: 0 <= i < |s.txs| ==> TxOk(lockKey, book, s.txs[i]))
    && (forall i :: 0 <= i < |s.txs| ==> Coherent(sched, View(s.db, s.txs[i])))
  }

  // Transactions that have not begun, on coherent tables. Each asks for the sorted, deduped keys
  // of its events' cards; distinct cards may share a key.
  ghost predicate Init(sched: Scheduler, lockKey: Key -> int, book: Book, s: System) {
    && Coherent(sched, s.db) && RowsIn(book, s.db.log)
    && forall i :: 0 <= i < |s.txs| ==>
         && s.txs[i].held == {} && s.txs[i].log == [] && s.txs[i].states == map[] && !s.txs[i].done
         && B.Ascending(s.txs[i].wanted)
         && B.KeysOf(s.txs[i].wanted, lockKey, s.txs[i].user, B.CardsOf(s.txs[i].todo))
         && forall p :: p in s.txs[i].todo ==> InBook(book, KeyOf(s.txs[i], p), p.review)
  }

  lemma KeyWanted(keys: seq<int>, lockKey: Key -> int, user: Id, cards: seq<Id>, c: Id)
    requires B.KeysOf(keys, lockKey, user, cards) && c in cards
    ensures lockKey(Key(user, c)) in keys
  {
    var k := lockKey(Key(user, c));
    assert k in keys <==> exists c' :: c' in cards && lockKey(Key(user, c')) == k;
  }

  lemma InitInv(sched: Scheduler, lockKey: Key -> int, book: Book, s: System)
    requires Init(sched, lockKey, book, s)
    ensures Inv(sched, lockKey, book, s)
  {
    forall i | 0 <= i < |s.txs|
      ensures TxOk(lockKey, book, s.txs[i]) && Coherent(sched, View(s.db, s.txs[i]))
    {
      var t := s.txs[i];
      assert View(s.db, t) == s.db;
      forall p | p in t.todo ensures lockKey(KeyOf(t, p)) in t.wanted {
        var n :| 0 <= n < |t.todo| && t.todo[n] == p;
        assert B.CardsOf(t.todo)[n] == p.card;
        KeyWanted(t.wanted, lockKey, t.user, B.CardsOf(t.todo), p.card);
      }
    }
  }

  // ---- Histories of cards a transaction does not touch ----

  lemma {:induction false} ListingSkips(x: seq<LogRow>, y: seq<LogRow>, z: seq<LogRow>, key: Key)
    requires forall i :: 0 <= i < |y| ==> y[i].key != key
    ensures Listing(x + y + z, key) == Listing(x + z, key)
    decreases |z|, |y|
  {
    if z != [] {
      var init := z[..|z| - 1];
      ListingSkips(x, y, init, key);
      assert (x + y + z)[..|x + y + z| - 1] == x + y + init;
      assert (x + z)[..|x + z| - 1] == x + init;
    } else if y != [] {
      var init := y[..|y| - 1];
      ListingSkips(x, init, z, key);
      assert x + y + z == (x + init) + [y[|y| - 1]];
      ListingAppend(x + init, y[|y| - 1], key);
      assert x + init + z == x + init;
    } else {
      assert x + y + z == x + z;
    }
  }

  // An uncommitted row is under its card's lock.
  lemma LoggedUnderLock(lockKey: Key -> int, book: Book, t: Tx, id: Id)
    requires TxOk(lockKey, book, t)
    ensures Logged(t.log, id) ==> id in book && lockKey(book[id].key) in t.held
  {
    if i :| 0 <= i < |t.log| && t.log[i].review.id == id {
      assert InBook(book, t.log[i].key, t.log[i].review);
    }
  }

  lemma UniqueConcat(x: seq<LogRow>, y: seq<LogRow>, z: seq<LogRow>)
    requires UniqueIds(x + y) && UniqueIds(x + z)
    requires forall id :: !(Logged(y, id) && Logged(z, id))
    ensures UniqueIds(x + y + z)
  {
    var w := x + y + z;
    forall i, j | 0 <= i < j < |w| ensures w[i].review.id != w[j].review.id {
      if j < |x + y| {
        assert w[i] == (x + y)[i] && w[j] == (x + y)[j];
      } else {
        var k := j - |y|;
        assert w[j] == (x + z)[k];
        if i < |x| {
          assert w[i] == (x + z)[i];
        } else {
          assert w[j] == z[j - |x + y|] && Logged(z, w[j].review.id);
          assert i < |x + y| ==> w[i] == y[i - |x|] && Logged(y, w[i].review.id);
          assert i >= |x + y| ==> w[i] == (x + z)[i - |y|];
        }
      }
    }
  }

  /** Another transaction's commit is invisible under one's own locks and coherent elsewhere. */
  lemma CommitKeepsView(sched: Scheduler, lockKey: Key -> int, book: Book, db: Db, t: Tx, u: Tx)
    requires TxOk(lockKey, book, t) && TxOk(lockKey, book, u) && t.held !! u.held
    requires Coherent(sched, View(db, t)) && Coherent(sched, View(db, u))
    ensures Coherent(sched, View(View(db, t), u))
  {
    var v := View(View(db, t), u);
    forall id ensures !(Logged(t.log, id) && Logged(u.log, id)) {
      LoggedUnderLock(lockKey, book, t, id);
      LoggedUnderLock(lockKey, book, u, id);
    }
    UniqueConcat(db.log, t.log, u.log);
    forall k ensures CoherentAt(sched, v, k) {
      assert CoherentAt(sched, View(db, t), k) && CoherentAt(sched, View(db, u), k);
      if lockKey(k) in t.held {
        ListingSkips(db.log + t.log, u.log, [], k);
        assert db.log + t.log + u.log + [] == v.log;
        assert db.log + t.log + [] == db.log + t.log;
        CoherentLocal(sched, View(db, t), v, k);
      } else {
        ListingSkips(db.log, t.log, u.log, k);
        CoherentLocal(sched, View(db, u), v, k);
      }
    }
  }

  // A review new to the log does not share the stored instant of its card.
  lemma NewInstant(sched: Scheduler, book: Book, db: Db, key: Key, r: Review)
    requires WellNamed(book) && Coherent(sched, db) && RowsIn(book, db.log) && InBook(book, key, r)
    ensures Logged(db.log, r.id) || Prior(db.states, key).lastReview != Some(r.at)
  {
    LastReviewIsLatest(sched, db, key);
    ListingElements(db.log, key);
    var rows := Listing(db.log, key);
    if !Logged(db.log, r.id) && rows != [] {
      assert rows[|rows| - 1] in rows;
      var i :| 0 <= i < |db.log| && db.log[i].key == key && db.log[i].review == rows[|rows| - 1];
      assert InBook(book, db.log[i].key, db.log[i].review);
    }
  }

  lemma AcquireKeepsInv(sched: Scheduler, lockKey: Key -> int, book: Book, s: System, i: nat)
    requires Inv(sched, lockKey, book, s) && i < |s.txs| && CanAcquire(s, i)
    ensures Inv(sched, lockKey, book, Acquire(s, i))
  {
    hide Coherent, RowsIn, InBook;
    var s' := Acquire(s, i);
    var t, t' := s.txs[i], s'.txs[i];
    assert TxOk(lockKey, book, t);
    assert t.wanted == [t.wanted[0]] + t'.wanted;
    forall k | k in t'.wanted ensures t.wanted[0] < k && k in t.wanted {
      var n :| 0 <= n < |t'.wanted| && t'.wanted[n] == k;
      assert t.wanted[n + 1] == k;
    }
    assert TxOk(lockKey, book, t');
    forall j | 0 <= j < |s'.txs| ensures Coherent(sched, View(s'.db, s'.txs[j])) {
      assert View(s'.db, s'.txs[j]) == View(s.db, s.txs[j]);
    }
  }

  lemma EndedOk(lockKey: Key -> int, book: Book, t: Tx)
    requires TxOk(lockKey, book, t)
    ensures TxOk(lockKey, book, Ended(t))
  {
  }

  lemma AbortKeepsInv(sched: Scheduler, lockKey: Key -> int, book: Book, s: System, i: nat)
    requires Inv(sched, lockKey, book, s) && i < |s.txs|
    ensures Inv(sched, lockKey, book, Abort(s, i))
  {
    EndedOk(lockKey, book, s.txs[i]);
    assert View(s.db, Ended(s.txs[i])) == s.db;
  }

  lemma CommitKeepsInv(sched: Scheduler, lockKey: Key -> int, book: Book, s: System, i: nat)
    requires Inv(sched, lockKey, book, s) && i < |s.txs| && CanCommit(s, i)
    ensures Inv(sched, lockKey, book, Commit(s, i))
  {
    var s' := Commit(s, i);
    var t := s.txs[i];
    EndedOk(lockKey, book, t);
    assert View(s'.db, Ended(t)) == s'.db;
    forall j | 0 <= j < |s'.txs| ensures Coherent(sched, View(s'.db, s'.txs[j])) {
      if j != i {
        assert t.held !! s.txs[j].held;
        CommitKeepsView(sched, lockKey, book, s.db, t, s.txs[j]);
      }
    }
  }

  lemma GradeKeepsInv(sched: Scheduler, lockKey: Key -> int, book: Book, s: System, i: nat)
    requires IgnoresDueOfNew(sched) && WellNamed(book)
    requires Inv(sched, lockKey, book, s) && i < |s.txs| && CanGrade(s, i)
    ensures Inv(sched, lockKey, book, GradeNext(sched, s, i))
  {
    hide Coherent, RowsIn, TxOk, IgnoresDueOfNew, WellNamed, InBook, Logged, Graded, Wrote;
    var t := s.txs[i];
    var p := t.todo[0];
    var key := KeyOf(t, p);
    var v := View(s.db, t);
    TodoInBook(lockKey, book, t);
    match Graded(sched, v, key, p.review) {
      case None => AbortKeepsInv(sched, lockKey, book, s, i);
      case Some(r) =>
        RowsInView(lockKey, book, s.db, t);
        NewInstant(sched, book, v, key, p.review);
        GradeKeepsCoherent(sched, v, key, p.review);
        WroteView(sched, s.db, t);
        WroteOk(lockKey, book, s.db, t, r.0);
    }
  }

  lemma TodoInBook(lockKey: Key -> int, book: Book, t: Tx)
    requires TxOk(lockKey, book, t) && t.todo != []
    ensures InBook(book, KeyOf(t, t.todo[0]), t.todo[0].review)
  {
    assert t.todo[0] in t.todo;
  }

  lemma RowsInView(lockKey: Key -> int, book: Book, db: Db, t: Tx)
    requires RowsIn(book, db.log) && TxOk(lockKey, book, t)
    ensures RowsIn(book, View(db, t).log)
  {
  }

  // A transaction sees the tables as its grade left them.
  lemma WroteView(sched: Scheduler, db: Db, t: Tx)
    requires t.todo != [] && Graded(sched, View(db, t), KeyOf(t, t.todo[0]), t.todo[0].review).Some?
    ensures var v, key, p := View(db, t), KeyOf(t, t.todo[0]), t.todo[0];
            var after := Graded(sched, v, key, p.review).value.0;
            && |db.log| <= |after.log|
            && (after.log == v.log || (|after.log| == |v.log| + 1 && after.log[..|v.log|] == v.log
                                       && after.log[|v.log|].key == key && after.log[|v.log|].review == p.review))
            && View(db, Wrote(db, t, key, after)) == after && Wrote(db, t, key, after).held == t.held
  {
    var v, key, p := View(db, t), KeyOf(t, t.todo[0]), t.todo[0];
    var after := Graded(sched, v, key, p.review).value.0;
    C.GradedLog(sched, v, key, p.review);
    GradedStates(sched, v, key, p.review);
    hide *;
    LogOfWrote(db, t, after);
    StatesOfWrote(db.states, t.states, after.states, key);
    ViewOfWrote(db, t, key, after);
  }

  lemma LogOfWrote(db: Db, t: Tx, after: Db)
    requires after.log == View(db, t).log || (|after.log| == |View(db, t).log| + 1 && after.log[..|View(db, t).log|] == View(db, t).log)
    ensures |db.log| <= |after.log| && db.log + after.log[|db.log|..] == after.log
  {
    assert after.log[..|db.log|] == after.log[..|db.log + t.log|][..|db.log|] == db.log;
  }

  lemma StatesOfWrote(base: map<Key, StateRow>, own: map<Key, StateRow>, after: map<Key, StateRow>, key: Key)
    requires forall k :: if k == key then k in base + own ==> k in after
                         else (k in after <==> k in base + own) && (k in base + own ==> after[k] == (base + own)[k])
    ensures base + (if key in after then own[key := after[key]] else own) == after
  {
  }

  lemma ViewOfWrote(db: Db, t: Tx, key: Key, after: Db)
    requires |db.log| <= |after.log| && db.log + after.log[|db.log|..] == after.log
    requires db.states + (if key in after.states then t.states[key := after.states[key]] else t.states) == after.states
    ensures View(db, Wrote(db, t, key, after)) == after && Wrote(db, t, key, after).held == t.held
  {
  }

  lemma GradedStates(sched: Scheduler, db: Db, key: Key, r: Review)
    requires Graded(sched, db, key, r).Some?
    ensures var db' := Graded(sched, db, key, r).value.0;
            forall k :: if k == key then k in db.states ==> k in db'.states
                        else (k in db'.states <==> k in db.states) && (k in db.states ==> db'.states[k] == db.states[k])
  {
    hide Listing, Insert, InsertPos, Fold, Logged, ElapsedDays, MemoryOf;
  }

  lemma WroteOk(lockKey: Key -> int, book: Book, db: Db, t: Tx, after: Db)
    requires TxOk(lockKey, book, t) && !t.done && t.wanted == [] && t.todo != []
    requires var v, key := View(db, t), KeyOf(t, t.todo[0]);
             after.log == v.log || (|after.log| == |v.log| + 1 && after.log[..|v.log|] == v.log
                                    && after.log[|v.log|].key == key && after.log[|v.log|].review == t.todo[0].review)
    ensures TxOk(lockKey, book, Wrote(db, t, KeyOf(t, t.todo[0]), after))
  {
    var p := t.todo[0];
    var key := KeyOf(t, p);
    var t' := Wrote(db, t, key, after);
    assert p in t.todo;
    assert lockKey(key) in t.held;
    assert forall q :: q in t'.todo ==> q in t.todo;
    forall i | 0 <= i < |t'.log|
      ensures lockKey(t'.log[i].key) in t.held && InBook(book, t'.log[i].key, t'.log[i].review)
    {
      if i < |t.log| {
        assert t'.log[i] == after.log[..|db.log + t.log|][|db.log| + i] == t.log[i];
      }
    }
  }

  lemma SettingsKeepInv(sched: Scheduler, lockKey: Key -> int, book: Book, s: System, s': System, key: Key, now: Instant, settings: Settings)
    requires Inv(sched, lockKey, book, s) && SettingsStep(s, s', key, now, settings)
    ensures Inv(sched, lockKey, book, s')
  {
    var e := C.SetSettings(key, now, settings);
    C.SettingsKeepCoherent(sched, s.db, e);
    forall i | 0 <= i < |s'.txs| ensures Coherent(sched, View(s'.db, s'.txs[i])) {
      C.SettingsKeepCoherent(sched, View(s.db, s.txs[i]), e);
      assert View(s'.db, s.txs[i]) == C.SettingsWritten(View(s.db, s.txs[i]), key, now, settings);
    }
  }

  /** The invariant over every step of every transaction and every settings write, in any
      interleaving. */
  lemma NextKeepsInv(sched: Scheduler, lockKey: Key -> int, book: Book, s: System, s': System)
    requires IgnoresDueOfNew(sched) && WellNamed(book)
    requires Inv(sched, lockKey, book, s) && Next(sched, s, s')
    ensures Inv(sched, lockKey, book, s')
    ensures s.db.log <= s'.db.log
  {
    if i: nat :| TxStep(sched, s, s', i) {
      if StepBy(sched, s, s', i) {
        StepKeepsInv(sched, lockKey, book, s, s', i);
      } else {
        AbortKeepsInv(sched, lockKey, book, s, i);
      }
    } else {
      var key, now, settings :| SettingsStep(s, s', key, now, settings);
      SettingsKeepInv(sched, lockKey, book, s, s', key, now, settings);
    }
  }

  lemma StepKeepsInv(sched: Scheduler, lockKey: Key -> int, book: Book, s: System, s': System, i: nat)
    requires IgnoresDueOfNew(sched) && WellNamed(book)
    requires Inv(sched, lockKey, book, s) && StepBy(sched, s, s', i)
    ensures Inv(sched, lockKey, book, s')
    ensures s.db.log <= s'.db.log
  {
    if CanAcquire(s, i) {
      AcquireKeepsInv(sched, lockKey, book, s, i);
    } else if CanGrade(s, i) {
      GradeKeepsInv(sched, lockKey, book, s, i);
    } else {
      CommitKeepsInv(sched, lockKey, book, s, i);
    }
  }

  /** Convergence under concurrency: in every reachable state of every interleaving the committed
      tables are coherent, and so is what each transaction sees; the committed log only grows. */
  lemma {:induction false} EveryCommitIsCoherent(
    sched: Scheduler, lockKey: Key -> int, book: Book, trace: seq<System>, n: nat)
    requires IgnoresDueOfNew(sched) && WellNamed(book)
    requires IsRun(sched, trace) && n < |trace| && Init(sched, lockKey, book, trace[0])
    ensures Inv(sched, lockKey, book, trace[n])
    ensures trace[0].db.log <= trace[n].db.log
  {
    if n == 0 {
      InitInv(sched, lockKey, book, trace[0]);
    } else {
      EveryCommitIsCoherent(sched, lockKey, book, trace, n - 1);
      assert Next(sched, trace[n - 1], trace[n - 1 + 1]);
      NextKeepsInv(sched, lockKey, book, trace[n - 1], trace[n]);
    }
  }

  /** Two interleavings that committed the same reviews of a card left the same state. */
  lemma InterleavingsConverge(sched: Scheduler, lockKey: Key -> int, book: Book, a: seq<System>, b: seq<System>,
                              x: Db, y: Db, key: Key)
    requires IgnoresDueOfNew(sched) && WellNamed(book) && IsRun(sched, a) && IsRun(sched, b)
    requires Init(sched, lockKey, book, a[0]) && Init(sched, lockKey, book, b[0])
    requires x == a[|a| - 1].db && y == b[|b| - 1].db
    requires forall r :: InLog(x.log, key, r) <==> InLog(y.log, key, r)
    ensures && Listing(x.log, key) == Listing(y.log, key)
            && (Listing(x.log, key) != [] ==>
                  && key in x.states && key in y.states
                  && x.states[key].(settings := DEFAULT_SETTINGS) == y.states[key].(settings := DEFAULT_SETTINGS))
  {
    EveryCommitIsCoherent(sched, lockKey, book, a, |a| - 1);
    EveryCommitIsCoherent(sched, lockKey, book, b, |b| - 1);
    SameLogSameState(sched, x, y, key);
    ListingElements(x.log, key);
    if Listing(x.log, key) != [] {
      assert Listing(x.log, key)[0] in Listing(x.log, key);
      assert InLog(x.log, key, Listing(x.log, key)[0]);
    }
  }

  // ---- Deadlock freedom ----

  // Grading never waits: whoever could hold the id holds the card's lock.
  lemma GradingNeverWaits(sched: Scheduler, lockKey: Key -> int, book: Book, s: System, i: nat)
    requires Inv(sched, lockKey, book, s) && i < |s.txs|
    requires !s.txs[i].done && s.txs[i].wanted == [] && s.txs[i].todo != []
    ensures CanGrade(s, i)
  {
    var t := s.txs[i];
    var p := t.todo[0];
    assert TxOk(lockKey, book, t) && p in t.todo;
    forall j | 0 <= j < |s.txs| && j != i ensures !Logged(s.txs[j].log, p.review.id) {
      var u := s.txs[j];
      assert TxOk(lockKey, book, u) && t.held !! u.held;
      LoggedUnderLock(lockKey, book, u, p.review.id);
      assert lockKey(KeyOf(t, p)) in t.held;
    }
  }

  // The unfinished waiting transaction with the highest next key.
  lemma {:induction false} HighestWaiter(txs: seq<Tx>, i: nat) returns (m: nat)
    requires i < |txs| && !txs[i].done && txs[i].wanted != []
    ensures m < |txs| && !txs[m].done && txs[m].wanted != []
    ensures forall j :: 0 <= j < |txs| && !txs[j].done && txs[j].wanted != [] ==>
              txs[j].wanted[0] <= txs[m].wanted[0]
  {
    m := i;
    for k := 0 to |txs|
      invariant m < |txs| && !txs[m].done && txs[m].wanted != []
      invariant forall j :: 0 <= j < k && !txs[j].done && txs[j].wanted != [] ==>
                  txs[j].wanted[0] <= txs[m].wanted[0]
    {
      if !txs[k].done && txs[k].wanted != [] && txs[k].wanted[0] > txs[m].wanted[0] { m := k; }
    }
  }

  /** Deadlock freedom: while any transaction is unfinished, some transaction can take a step other
      than rolling back, whatever the lock hash collides. */
  lemma DeadlockFree(sched: Scheduler, lockKey: Key -> int, book: Book, s: System, i: nat)
    requires Inv(sched, lockKey, book, s)
    requires i < |s.txs| && !s.txs[i].done
    ensures exists j: nat, s' :: StepBy(sched, s, s', j)
  {
    if s.txs[i].wanted == [] {
      if s.txs[i].todo == [] {
        assert StepBy(sched, s, Commit(s, i), i);
      } else {
        GradingNeverWaits(sched, lockKey, book, s, i);
        assert StepBy(sched, s, GradeNext(sched, s, i), i);
      }
    } else {
      var m := HighestWaiter(s.txs, i);
      if CanAcquire(s, m) {
        assert StepBy(sched, s, Acquire(s, m), m);
      } else {
        var j :| 0 <= j < |s.txs| && j != m && s.txs[m].wanted[0] in s.txs[j].held;
        assert TxOk(lockKey, book, s.txs[j]);
        // The holder waits for nothing: its next key would be higher than the highest.
        FirstElement(s.txs[j].wanted);
        assert s.txs[j].wanted == [];
        if s.txs[j].todo == [] {
          assert StepBy(sched, s, Commit(s, j), j);
        } else {
          GradingNeverWaits(sched, lockKey, book, s, j);
          assert StepBy(sched, s, GradeNext(sched, s, j), j);
        }
      }
    }
  }

  lemma FirstElement(keys: seq<int>)
    ensures keys == [] || keys[0] in keys
  {
  }

  function Work(t: Tx): nat {
    if t.done then 0 else 1 + |t.wanted| + |t.todo|
  }

  function TotalWork(txs: seq<Tx>): nat {
    if txs == [] then 0 else TotalWork(txs[..|txs| - 1]) + Work(txs[|txs| - 1])
  }

  lemma {:induction false} WorkDrops(txs: seq<Tx>, i: nat, t: Tx)
    requires i < |txs| && Work(t) < Work(txs[i])
    ensures TotalWork(txs[i := t]) < TotalWork(txs)
  {
    var init := txs[..|txs| - 1];
    if i == |txs| - 1 {
      assert txs[i := t][..|txs| - 1] == init;
    } else {
      WorkDrops(init, i, t);
      assert txs[i := t][..|txs| - 1] == init[i := t];
    }
  }

  // The steps of a run that transactions take, as opposed to settings writes.
  function TxSteps(trace: seq<System>, n: nat): nat
    requires n < |trace|
  {
    if n == 0 then 0 else TxSteps(trace, n - 1) + if trace[n - 1].txs == trace[n].txs then 0 else 1
  }

  /** Every run ends: its transactions take at most as many steps as they had work to start with. */
  lemma {:induction false} RunsEnd(sched: Scheduler, trace: seq<System>, n: nat)
    requires IsRun(sched, trace) && n < |trace|
    ensures TxSteps(trace, n) + TotalWork(trace[n].txs) <= TotalWork(trace[0].txs)
  {
    if n > 0 {
      RunsEnd(sched, trace, n - 1);
      var s, s' := trace[n - 1], trace[n - 1 + 1];
      assert Next(sched, s, s');
      if i: nat :| TxStep(sched, s, s', i) { TxStepWorks(sched, s, s', i); }
    }
  }

  /** A step of a transaction is some of its work. */
  lemma TxStepWorks(sched: Scheduler, s: System, s': System, i: nat)
    requires TxStep(sched, s, s', i)
    ensures TotalWork(s'.txs) < TotalWork(s.txs) && s'.txs != s.txs
  {
    assert s'.txs == s.txs[i := s'.txs[i]];
    WorkDrops(s.txs, i, s'.txs[i]);
  }

  ghost predicate Stuck(sched: Scheduler, s: System) {
    && (exists i :: 0 <= i < |s.txs| && !s.txs[i].done)
    && !exists j: nat, s' :: StepBy(sched, s, s', j)
  }

  predicate AtGrade(t: Tx) { !t.done && t.wanted == [] && t.todo != [] }

  ghost predicate BothRunning(s: System) { |s.txs| == 2 && !s.txs[0].done && !s.txs[1].done }

  // A transaction at its next event, which the other one has already inserted and not committed.
  ghost predicate WaitsFor(t: Tx, u: Tx) { AtGrade(t) && Logged(u.log, t.todo[0].review.id) }

  // Unable to take, to grade and to commit.
  ghost predicate BlockedAt(s: System, i: nat)
    requires i < |s.txs|
  {
    !CanAcquire(s, i) && !CanGrade(s, i) && !CanCommit(s, i)
  }

  lemma WaitersAreStuck(sched: Scheduler, s: System)
    requires BothRunning(s) && WaitsFor(s.txs[0], s.txs[1]) && WaitsFor(s.txs[1], s.txs[0])
    ensures Stuck(sched, s)
  {
    hide Logged;
    assert BlockedAt(s, 0) && BlockedAt(s, 1);
    hide CanAcquire, CanGrade, CanCommit;
  }

  lemma FirstGrade(sched: Scheduler, s: System, i: nat)
    requires i < |s.txs| && CanGrade(s, i)
    requires s.db == Db([], map[]) && s.txs[i].log == [] && s.txs[i].states == map[]
    requires forall k, c, r, at :: sched(k, c, r, at).Some?
    ensures var t, s' := s.txs[i], GradeNext(sched, s, i);
            && s'.db == s.db && |s'.txs| == |s.txs|
            && (forall j :: 0 <= j < |s.txs| && j != i ==> s'.txs[j] == s.txs[j])
            && var t' := s'.txs[i];
            && !t'.done && t'.wanted == [] && t'.todo == t.todo[1..]
            && |t'.log| == 1 && t'.log[0].review.id == t.todo[0].review.id
    ensures StepBy(sched, s, GradeNext(sched, s, i), i)
  {
    var t := s.txs[i];
    assert View(s.db, t) == Db([], map[]);
    var r := Graded(sched, View(s.db, t), KeyOf(t, t.todo[0]), t.todo[0].review).value;
    assert r.0.log[0..][0].review.id == t.todo[0].review.id;
  }

  // Two transactions, each about to grade its own card under the same two ids.
  function Crossed(wanted: seq<seq<int>>, held: seq<set<int>>): System
    requires |wanted| == |held| == 2
  {
    System(Db([], map[]),
           [Tx(7, wanted[0], held[0], [B.Pending(1, Review(1, 3, 10)), B.Pending(1, Review(2, 3, 20))], [], map[], false),
            Tx(7, wanted[1], held[1], [B.Pending(2, Review(2, 3, 10)), B.Pending(2, Review(1, 3, 20))], [], map[], false)])
  }

  lemma CrossedLocks(sched: Scheduler)
    ensures StepBy(sched, Crossed([[1], [2]], [{}, {}]), Crossed([[], [2]], [{1}, {}]), 0)
    ensures StepBy(sched, Crossed([[], [2]], [{1}, {}]), Crossed([[], []], [{1}, {2}]), 1)
  {
    var s := Crossed([[1], [2]], [{}, {}]);
    assert [1][1..] == [] && [2][1..] == [] && {} + {1} == {1} && {} + {2} == {2};
    assert CanAcquire(s, 0);
    assert Acquire(s, 0).txs[0] == Crossed([[], [2]], [{1}, {}]).txs[0];
    assert Acquire(s, 0).txs == Crossed([[], [2]], [{1}, {}]).txs;
    var s' := Crossed([[], [2]], [{1}, {}]);
    assert CanAcquire(s', 1);
    assert Acquire(s', 1).txs[1] == Crossed([[], []], [{1}, {2}]).txs[1];
    assert Acquire(s', 1).txs == Crossed([[], []], [{1}, {2}]).txs;
  }

  lemma CrossedGrades(sched: Scheduler) returns (s: System, s': System)
    requires forall k, c, r, at :: sched(k, c, r, at).Some?
    ensures StepBy(sched, Crossed([[], []], [{1}, {2}]), s, 0) && StepBy(sched, s, s', 1)
    ensures Stuck(sched, s')
  {
    hide Graded, StepBy, Stuck, GradeNext;
    var s0 := Crossed([[], []], [{1}, {2}]);
    FirstGrade(sched, s0, 0);
    s := GradeNext(sched, s0, 0);
    FirstGrade(sched, s, 1);
    s' := GradeNext(sched, s, 1);
    WaitersAreStuck(sched, s');
  }

  /** The naming condition is needed: two transactions that each use the same two ids for their own
      card, in opposite orders, stop each other on review_log's primary key. */
  lemma ReusedIdsDeadlock() returns (sched: Scheduler, trace: seq<System>)
    ensures IsRun(sched, trace) && Stuck(sched, trace[|trace| - 1])
    ensures forall i :: 0 <= i < |trace[0].txs| ==>
              var t := trace[0].txs[i];
              t.held == {} && t.log == [] && t.states == map[] && !t.done && B.Ascending(t.wanted)
              && B.KeysOf(t.wanted, (k: Key) => k.card, t.user, B.CardsOf(t.todo))
  {
    sched := (k: Key, s: CardState, r: Rating, at: Instant) => Some(s.sched);
    var s0 := Crossed([[1], [2]], [{}, {}]);
    CrossedLocks(sched);
    var s3, s4 := CrossedGrades(sched);
    trace := [s0, Crossed([[], [2]], [{1}, {}]), Crossed([[], []], [{1}, {2}]), s3, s4];
    CrossedStart();
    hide StepBy, Stuck;
    assert TxStep(sched, trace[0], trace[1], 0) && TxStep(sched, trace[1], trace[2], 1);
    assert TxStep(sched, trace[2], trace[3], 0) && TxStep(sched, trace[3], trace[4], 1);
    assert Next(sched, trace[0], trace[1]) && Next(sched, trace[1], trace[2]);
    assert Next(sched, trace[2], trace[3]) && Next(sched, trace[3], trace[4]);
  }

  // Both begin with the sorted keys of their cards.
  lemma CrossedStart()
    ensures var s := Crossed([[1], [2]], [{}, {}]);
            forall i :: 0 <= i < |s.txs| ==>
              var t := s.txs[i];
              t.held == {} && t.log == [] && t.states == map[] && !t.done && B.Ascending(t.wanted)
              && B.KeysOf(t.wanted, (k: Key) => k.card, t.user, B.CardsOf(t.todo))
  {
    var s := Crossed([[1], [2]], [{}, {}]);
    var lockKey := (k: Key) => k.card;
    assert B.CardsOf(s.txs[0].todo) == [1, 1] && B.CardsOf(s.txs[1].todo) == [2, 2];
    assert 1 in [1, 1] && lockKey(Key(7, 1)) == 1 && 2 in [2, 2] && lockKey(Key(7, 2)) == 2;
    assert B.KeysOf([1], lockKey, 7, [1, 1]) && B.KeysOf([2], lockKey, 7, [2, 2]);
  }
}
