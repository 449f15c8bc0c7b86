/** Whole runs of the grading protocol: whatever the batches, order and resends, the stored state
    is a function of the set of reviews. */
module Convergence {
  import opened Wrappers
  import opened ReviewLog
  import opened Grading
  import B = GradeBatch

  // What can happen to the tables of committed transactions. A batch is its events in the order
  // they were applied; a batch that failed rolled back and contributes nothing. SetSettings is
  // UpsertUserCardStateSettings, which creates a row with due = now for a never-seen card.
  datatype Event =
    | Grade(key: Key, review: Review)
    | SetSettings(key: Key, now: Instant, settings: Settings)

  function Applied1(sched: Scheduler, db: Db, e: Event): Option<Db> {
    match e
    case Grade(key, review) =>
      (match Graded(sched, db, key, review)
       case None => None
       case Some(r) => Some(r.0))
    case SetSettings(key, now, settings) => Some(SettingsWritten(db, key, now, settings))
  }

  // Updates the settings of a row that is there, or inserts one that is due now.
  function SettingsWritten(db: Db, key: Key, now: Instant, settings: Settings): Db {
    var row := if key in db.states then db.states[key].(settings := settings)
               else StateRow(NEVER_SEEN.sched.(due := now), 0, None, settings);
    db.(states := db.states[key := row])
  }

  /** A settings write changes the settings of one row and nothing else; where there is no row it leaves
      one of a never-reviewed card, due now. The log stays. */
  lemma SettingsWriteOnly(db: Db, key: Key, now: Instant, settings: Settings)
    ensures var db' := SettingsWritten(db, key, now, settings);
            && db'.log == db.log && (forall k :: k in db'.states <==> k in db.states || k == key)
            && (forall k :: k in db.states && k != key ==> db'.states[k] == db.states[k])
            && db'.states[key].settings == settings
            && (key in db.states ==>
                  var row, row' := db.states[key], db'.states[key];
                  row'.sched == row.sched && row'.elapsedDays == row.elapsedDays && row'.lastReview == row.lastReview)
            && (key !in db.states ==>
                  var row' := db'.states[key];
                  row'.lastReview.None? && row'.elapsedDays == 0 && row'.sched.due == now && row'.sched.reps == 0 && SettingsOnly(row'))
  {
  }

  const EMPTY := Db([], map[])

  function Run(sched: Scheduler, es: seq<Event>): Option<Db> {
    if es == [] then Some(EMPTY)
    else
      match Run(sched, es[..|es| - 1])
      case None => None
      case Some(db) => Applied1(sched, db, es[|es| - 1])
  }

  // An id names one review of one card, and no two reviews of a card share an instant.
  ghost predicate WellNamed(es: seq<Event>) {
    forall i, j :: 0 <= i < |es| && 0 <= j < |es| && es[i].Grade? && es[j].Grade? ==>
      && (es[i].review.id == es[j].review.id ==> es[i] == es[j])
      && (es[i].key == es[j].key && es[i].review.at == es[j].review.at ==> es[i] == es[j])
  }

  ghost predicate Submitted(es: seq<Event>, key: Key, r: Review) {
    Grade(key, r) in es
  }

  // The log holds exactly the submitted reviews, each once.
  ghost predicate LogIsSubmissions(log: seq<LogRow>, es: seq<Event>) {
    UniqueIds(log) && forall key, r :: InLog(log, key, r) <==> Submitted(es, key, r)
  }

  lemma GradedLog(sched: Scheduler, db: Db, key: Key, r: Review)
    requires Graded(sched, db, key, r).Some?
    ensures var db' := Graded(sched, db, key, r).value.0;
            if Logged(db.log, r.id) then db' == db
            else |db'.log| == |db.log| + 1 && db'.log[..|db.log|] == db.log &&
                 db'.log[|db.log|].key == key && db'.log[|db.log|].review == r
  {
  }

  lemma SettingsKeepCoherent(sched: Scheduler, db: Db, e: Event)
    requires e.SetSettings? && Coherent(sched, db)
    ensures Coherent(sched, Applied1(sched, db, e).value)
  {
    var db' := Applied1(sched, db, e).value;
    forall k ensures CoherentAt(sched, db', k) {
      assert CoherentAt(sched, db, k);
    }
  }

  // A taken id is a resend of the very review that took it.
  lemma TakenIdIsResend(log: seq<LogRow>, es: seq<Event>, e: Event)
    requires e.Grade? && WellNamed(es + [e]) && LogIsSubmissions(log, es)
    requires Logged(log, e.review.id)
    ensures Submitted(es, e.key, e.review)
  {
    var es' := es + [e];
    var i :| 0 <= i < |log| && log[i].review.id == e.review.id;
    assert InLog(log, log[i].key, log[i].review);
    assert Submitted(es, log[i].key, log[i].review);
    var j :| 0 <= j < |es| && es[j] == Grade(log[i].key, log[i].review);
    assert es'[j] == es[j] && es'[|es|] == e;
  }

  // A review whose id is new has an instant that is new to its card.
  lemma NewIdIsNewInstant(log: seq<LogRow>, es: seq<Event>, e: Event, x: Review)
    requires e.Grade? && WellNamed(es + [e]) && LogIsSubmissions(log, es)
    requires !Logged(log, e.review.id) && x in Listing(log, e.key)
    ensures x.at != e.review.at
  {
    var es' := es + [e];
    ListingElements(log, e.key);
    var i :| 0 <= i < |log| && log[i].key == e.key && log[i].review == x;
    assert InLog(log, e.key, x) && Submitted(es, e.key, x);
    var j :| 0 <= j < |es| && es[j] == Grade(e.key, x);
    assert es'[j] == es[j] && es'[|es|] == e;
  }

  lemma AppendedLog(log: seq<LogRow>, row: LogRow, key: Key, r: Review)
    ensures InLog(log + [row], key, r) <==> InLog(log, key, r) || (row.key == key && row.review == r)
  {
    var log' := log + [row];
    if i :| 0 <= i < |log| && log[i].key == key && log[i].review == r {
      assert log'[i] == log[i];
    }
    assert log'[|log|] == row;
  }

  lemma StepLog(sched: Scheduler, db: Db, es: seq<Event>, e: Event)
    requires WellNamed(es + [e]) && LogIsSubmissions(db.log, es)
    requires Applied1(sched, db, e).Some?
    ensures LogIsSubmissions(Applied1(sched, db, e).value.log, es + [e])
  {
    var db' := Applied1(sched, db, e).value;
    if e.Grade? { GradedLog(sched, db, e.key, e.review); }
    var appended := e.Grade? && !Logged(db.log, e.review.id);
    if e.Grade? && !appended { TakenIdIsResend(db.log, es, e); }
    assert appended ==> db'.log == db.log + [db'.log[|db.log|]];
    forall key, r ensures InLog(db'.log, key, r) <==> Submitted(es + [e], key, r) {
      assert InLog(db.log, key, r) <==> Submitted(es, key, r);
      if appended { AppendedLog(db.log, db'.log[|db.log|], key, r); }
    }
  }

  /** Exactly once and coherent, over every run: the log is exactly the submitted reviews, one row
      each, and every card's stored state is the replay of its log. */
  lemma {:induction false} RunIsCoherent(sched: Scheduler, es: seq<Event>)
    requires IgnoresDueOfNew(sched) && WellNamed(es)
    requires Run(sched, es).Some?
    ensures LogIsSubmissions(Run(sched, es).value.log, es)
    ensures Coherent(sched, Run(sched, es).value)
  {
    if es != [] {
      var init, e := es[..|es| - 1], es[|es| - 1];
      assert es == init + [e];
      assert forall i :: 0 <= i < |init| ==> init[i] == es[i];
      RunIsCoherent(sched, init);
      hide WellNamed, LogIsSubmissions, Coherent, Applied1, IgnoresDueOfNew;
      var db := Run(sched, init).value;
      StepLog(sched, db, init, e);
      StepCoherent(sched, db, init, e);
    }
  }

  lemma StepCoherent(sched: Scheduler, db: Db, es: seq<Event>, e: Event)
    requires IgnoresDueOfNew(sched) && WellNamed(es + [e]) && LogIsSubmissions(db.log, es)
    requires Coherent(sched, db) && Applied1(sched, db, e).Some?
    ensures Coherent(sched, Applied1(sched, db, e).value)
  {
    hide Coherent, IgnoresDueOfNew, WellNamed, LogIsSubmissions, Listing, Logged, Graded;
    if e.Grade? {
      LastReviewIsLatest(sched, db, e.key);
      var rows := Listing(db.log, e.key);
      if !Logged(db.log, e.review.id) && rows != [] {
        NewIdIsNewInstant(db.log, es, e, rows[|rows| - 1]);
      }
      GradeKeepsCoherent(sched, db, e.key, e.review);
    } else {
      SettingsKeepCoherent(sched, db, e);
    }
  }

  /** Convergence: two runs of the same set of reviews, in any order, with any resends, any batch
      splits and any settings writes between them, end with the same history and the same
      scheduling state for every card that was reviewed. */
  lemma RunsConverge(sched: Scheduler, a: seq<Event>, b: seq<Event>, key: Key)
    requires IgnoresDueOfNew(sched) && WellNamed(a) && WellNamed(b)
    requires Run(sched, a).Some? && Run(sched, b).Some?
    requires forall r :: Submitted(a, key, r) <==> Submitted(b, key, r)
    ensures var x, y := Run(sched, a).value, Run(sched, b).value;
            && Listing(x.log, key) == Listing(y.log, key)
            && ((exists r :: Submitted(a, key, r)) ==>
                  && key in x.states && key in y.states
                  && x.states[key].(settings := DEFAULT_SETTINGS) == y.states[key].(settings := DEFAULT_SETTINGS))
  {
    RunIsCoherent(sched, a);
    RunIsCoherent(sched, b);
    var x, y := Run(sched, a).value, Run(sched, b).value;
    forall r ensures InLog(x.log, key, r) <==> InLog(y.log, key, r) {
      assert Submitted(a, key, r) <==> Submitted(b, key, r);
    }
    SameLogSameState(sched, x, y, key);
    if r :| Submitted(a, key, r) {
      assert InLog(x.log, key, r);
    }
  }

  /** A resent review changes neither the log nor any state. */
  lemma ResendChangesNothing(sched: Scheduler, es: seq<Event>, key: Key, r: Review)
    requires WellNamed(es) && Submitted(es, key, r) && IgnoresDueOfNew(sched)
    requires Run(sched, es).Some? && Run(sched, es + [Grade(key, r)]).Some?
    ensures Run(sched, es + [Grade(key, r)]) == Run(sched, es)
  {
    RunIsCoherent(sched, es);
    var db := Run(sched, es).value;
    assert InLog(db.log, key, r);
    assert (es + [Grade(key, r)])[..|es|] == es;
  }

  /** The log only grows, an id enters it once, and a card's settings are changed by settings writes
      alone. */
  lemma StepIsAppendOnly(sched: Scheduler, db: Db, e: Event)
    requires Applied1(sched, db, e).Some?
    ensures var db' := Applied1(sched, db, e).value;
            && db.log <= db'.log && |db'.log| <= |db.log| + 1
            && (UniqueIds(db.log) ==> UniqueIds(db'.log))
            && (e.Grade? ==> forall k :: k in db.states ==>
                  k in db'.states && db'.states[k].settings == db.states[k].settings)
            && (forall k | k != e.key ::
                  (k in db'.states <==> k in db.states) && (k in db.states ==> db'.states[k] == db.states[k]))
  {
  }

  function EventsOf(user: Id, ps: seq<B.Pending>): seq<Event> {
    if ps == [] then []
    else EventsOf(user, ps[..|ps| - 1]) + [Grade(Key(user, ps[|ps| - 1].card), ps[|ps| - 1].review)]
  }

  lemma RunAppend(sched: Scheduler, es: seq<Event>, e: Event)
    requires Run(sched, es).Some?
    ensures Run(sched, es + [e]) == Applied1(sched, Run(sched, es).value, e)
  {
    assert (es + [e])[..|es|] == es;
  }

  /** A committed batch is a stretch of the run: its grades, in the order it applied them. */
  lemma {:induction false} BatchExtendsRun(sched: Scheduler, es: seq<Event>, user: Id, ps: seq<B.Pending>)
    requires Run(sched, es).Some?
    requires B.RunGrades(sched, Run(sched, es).value, user, ps).Some?
    ensures Run(sched, es + EventsOf(user, ps)) == B.RunGrades(sched, Run(sched, es).value, user, ps)
  {
    if ps == [] {
      assert es + EventsOf(user, ps) == es;
    } else {
      var init, p := ps[..|ps| - 1], ps[|ps| - 1];
      var e := Grade(Key(user, p.card), p.review);
      BatchExtendsRun(sched, es, user, init);
      hide Run, Graded;
      assert es + EventsOf(user, ps) == (es + EventsOf(user, init)) + [e];
      RunAppend(sched, es + EventsOf(user, init), e);
    }
  }

  /** In a request that does not reuse ids, each answer is the true status of its own event. */
  lemma AnswerIsOwn(evs: seq<B.Event>, i: nat, ev: B.Event, res: B.Res, now: int, studyable: set<Id>,
                    log: seq<LogRow>)
    requires B.UniqueEvents(evs) && i < |evs| && ev in evs
    requires B.Explains(ev, res, now, studyable, log, true) && res.id == evs[i].id
    ensures res.card == evs[i].card && res.status == B.StatusOf(evs[i], now, studyable, log)
  {
    var j :| 0 <= j < |evs| && evs[j] == ev;
    assert j == i;
  }
}
