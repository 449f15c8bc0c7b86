/** Grading one review: the cached card state and its fast forward path
    (internal/review/grade.go, internal/db/user_card_state.sql.go). */
module Grading {
  import opened Wrappers
  import opened ReviewLog

  // suspended, buried_until, flag: the user's settings, which no grade touches.
  datatype Settings = Settings(suspended: bool, buriedUntil: Option<int>, flag: int)

  const DEFAULT_SETTINGS := Settings(false, None, 0)

  // A user_card_state row.
  datatype StateRow = StateRow(
    sched: Outcome, elapsedDays: nat, lastReview: Option<Instant>, settings: Settings)

  datatype Db = Db(log: seq<LogRow>, states: map<Key, StateRow>)

  datatype Status = Applied | Duplicate | Forbidden | Rejected

  const DAY := 86_400_000_000

  function StateOf(row: StateRow): CardState {
    CardState(row.sched, row.lastReview)
  }

  function Prior(states: map<Key, StateRow>, key: Key): CardState {
    if key in states then StateOf(states[key]) else NEVER_SEEN
  }

  // UTC midnights crossed since the last review.
  function ElapsedDays(prior: CardState, at: Instant): nat {
    match prior.lastReview
    case None => 0
    case Some(lr) => if at / DAY < lr / DAY then 0 else at / DAY - lr / DAY
  }

  // The UTC midnights in (lo, hi].
  function Midnights(lo: Instant, hi: Instant): nat
    decreases if hi <= lo then 0 else hi - lo
  {
    if hi <= lo then 0 else Midnights(lo, hi - 1) + if hi % DAY == 0 then 1 else 0
  }

  /** The elapsed days of a review are the UTC midnights since the last one. */
  lemma {:induction false} ElapsedIsMidnights(prior: CardState, at: Instant)
    ensures ElapsedDays(prior, at) == if prior.lastReview.None? then 0 else Midnights(prior.lastReview.value, at)
    decreases if prior.lastReview.Some? && prior.lastReview.value < at then at - prior.lastReview.value else 0
  {
    if prior.lastReview.Some? && prior.lastReview.value < at { ElapsedIsMidnights(prior, at - 1); }
  }

  function SettingsOf(states: map<Key, StateRow>, key: Key): Settings {
    if key in states then states[key].settings else DEFAULT_SETTINGS
  }

  // The guarded upsert: a stored review at or after this one is left alone.
  function UpsertOnReview(states: map<Key, StateRow>, key: Key, o: Outcome, elapsed: nat, at: Instant)
    : map<Key, StateRow>
  {
    if key in states && states[key].lastReview.Some? && states[key].lastReview.value >= at then states
    else states[key := StateRow(o, elapsed, Some(at), SettingsOf(states, key))]
  }

  /** One grade exactly as the server performs it: forward from the cached state when the review is
      not older than it, otherwise by splicing into the history and replaying. None is a
      scheduling error, which rolls the whole batch back. */
  function Graded(sched: Scheduler, db: Db, key: Key, ev: Review): Option<(Db, Status)> {
    var prior := Prior(db.states, key);
    if prior.lastReview.None? || ev.at >= prior.lastReview.value then
      match sched(key, prior, ev.rating, ev.at)
      case None => None
      case Some(o) =>
        if Logged(db.log, ev.id) then Some((db, Duplicate))
        else
          var elapsed := ElapsedDays(prior, ev.at);
          var row := LogRow(key, ev, MemoryOf(prior), elapsed, o.scheduledDays);
          Some((Db(db.log + [row], UpsertOnReview(db.states, key, o, elapsed, ev.at)), Applied))
    else
      match Replayed(sched, db, key, ev)
      case None => None
      case Some(db') => if Logged(db.log, ev.id) then Some((db, Duplicate)) else Some((db', Applied))
  }

  /** The reference: log the review with the state its true place in the history implies, and
      rebuild the card's state from the whole history. */
  function Replayed(sched: Scheduler, db: Db, key: Key, ev: Review): Option<Db> {
    var rows := Listing(db.log, key);
    var merged := Insert(rows, ev);
    match (Fold(sched, key, rows[..InsertPos(rows, ev)]), Fold(sched, key, merged[..|merged| - 1]),
           Fold(sched, key, merged))
    case (Some(prior), Some(lastPrior), Some(final)) =>
      (match sched(key, prior, ev.rating, ev.at)
       case None => None
       case Some(o) =>
         var row := LogRow(key, ev, MemoryOf(prior), ElapsedDays(prior, ev.at), o.scheduledDays);
         var lastAt := merged[|merged| - 1].at;
         Some(Db(db.log + [row],
                 db.states[key := StateRow(final.sched, ElapsedDays(lastPrior, lastAt), Some(lastAt),
                                           SettingsOf(db.states, key))])))
    case _ => None
  }

  // A row that only carries settings: its scheduling columns are the never-seen ones, apart from
  // the due instant the settings write filled in.
  predicate SettingsOnly(row: StateRow) {
    row.lastReview.None? && row.elapsedDays == 0 && row.sched.(due := 0) == NEVER_SEEN.sched
  }

  /** The claim of the cache: a card's stored state is the replay of its whole log. */
  predicate CoherentAt(sched: Scheduler, db: Db, key: Key) {
    var rows := Listing(db.log, key);
    if rows == [] then key in db.states ==> SettingsOnly(db.states[key])
    else
      && key in db.states
      && Fold(sched, key, rows) == Some(StateOf(db.states[key]))
      && (match Fold(sched, key, rows[..|rows| - 1])
          case None => false
          case Some(s) => db.states[key].elapsedDays == ElapsedDays(s, rows[|rows| - 1].at))
  }

  ghost predicate Coherent(sched: Scheduler, db: Db) {
    UniqueIds(db.log) && forall key :: CoherentAt(sched, db, key)
  }

  // The scheduler does not read the due instant of a card that was never reviewed.
  ghost predicate IgnoresDueOfNew(sched: Scheduler) {
    forall key, o: Outcome, rating, at ::
      sched(key, CardState(o, None), rating, at) == sched(key, CardState(o.(due := 0), None), rating, at)
  }

  // last_review is the latest instant in the card's log.
  lemma LastReviewIsLatest(sched: Scheduler, db: Db, key: Key)
    requires Coherent(sched, db)
    ensures var rows := Listing(db.log, key);
            Prior(db.states, key).lastReview ==
            if rows == [] then None else Some(rows[|rows| - 1].at)
    ensures forall r :: r in Listing(db.log, key) ==> r.at <= Prior(db.states, key).lastReview.value
  {
    var rows := Listing(db.log, key);
    assert CoherentAt(sched, db, key);
    ListingSorted(db.log, key);
    forall r | r in rows ensures rows != [] && r.at <= rows[|rows| - 1].at {
      var i :| 0 <= i < |rows| && rows[i] == r;
      assert i < |rows| - 1 ==> Before(rows[i], rows[|rows| - 1]);
    }
  }

  // A settings-only card and a never-seen card schedule alike.
  lemma PriorIsFold(sched: Scheduler, db: Db, key: Key, ev: Review)
    requires IgnoresDueOfNew(sched) && CoherentAt(sched, db, key)
    ensures Fold(sched, key, Listing(db.log, key)).Some?
    ensures var s := Fold(sched, key, Listing(db.log, key)).value;
            var prior := Prior(db.states, key);
            && sched(key, prior, ev.rating, ev.at) == sched(key, s, ev.rating, ev.at)
            && MemoryOf(prior) == MemoryOf(s)
            && prior.lastReview == s.lastReview
  {
    var rows := Listing(db.log, key);
    if rows == [] && key in db.states {
      var row := db.states[key];
      assert sched(key, CardState(row.sched, None), ev.rating, ev.at) ==
             sched(key, CardState(row.sched.(due := 0), None), ev.rating, ev.at);
    }
  }

  /** The fast path refines the reference: on a coherent card, a review that is new to the log and
      not at the stored instant itself has exactly the effect of splice-and-replay. */
  lemma GradedIsReplayed(sched: Scheduler, db: Db, key: Key, ev: Review)
    requires IgnoresDueOfNew(sched) && Coherent(sched, db)
    requires !Logged(db.log, ev.id)
    requires Prior(db.states, key).lastReview != Some(ev.at)
    ensures Graded(sched, db, key, ev) ==
            match Replayed(sched, db, key, ev)
            case None => None
            case Some(db') => Some((db', Applied))
  {
    hide Listing, Insert, InsertPos, Fold, Coherent, CoherentAt, IgnoresDueOfNew, Logged, Step, ElapsedDays;
    var prior := Prior(db.states, key);
    if prior.lastReview.None? || ev.at >= prior.lastReview.value {
      CoherentAtKey(sched, db, key);
      ForwardInserts(sched, db, key, ev);
      PriorIsFold(sched, db, key, ev);
      FoldSnoc(sched, key, Listing(db.log, key), ev);
      ForwardIsReplay(sched, db, key, ev);
    }
  }

  lemma CoherentAtKey(sched: Scheduler, db: Db, key: Key)
    requires Coherent(sched, db)
    ensures CoherentAt(sched, db, key)
  {
  }

  lemma FoldSnoc(sched: Scheduler, key: Key, rows: seq<Review>, ev: Review)
    ensures (rows + [ev])[..|rows|] == rows
    ensures Fold(sched, key, rows + [ev]) ==
            match Fold(sched, key, rows)
            case None => None
            case Some(s) => Step(sched, key, s, ev)
  {
    assert (rows + [ev])[..|rows|] == rows;
  }

  // Forward and replay agree once the history is known to end with the new review.
  lemma ForwardIsReplay(sched: Scheduler, db: Db, key: Key, ev: Review)
    requires !Logged(db.log, ev.id)
    requires match Prior(db.states, key).lastReview case None => true case Some(lr) => ev.at > lr
    requires var rows := Listing(db.log, key);
             && InsertPos(rows, ev) == |rows| && rows[..|rows|] == rows
             && Insert(rows, ev) == rows + [ev] && (rows + [ev])[..|rows|] == rows
    requires var fold, prior := Fold(sched, key, Listing(db.log, key)), Prior(db.states, key);
             && fold.Some? && sched(key, prior, ev.rating, ev.at) == sched(key, fold.value, ev.rating, ev.at)
             && MemoryOf(prior) == MemoryOf(fold.value) && prior.lastReview == fold.value.lastReview
             && Fold(sched, key, Listing(db.log, key) + [ev]) == Step(sched, key, fold.value, ev)
    ensures Graded(sched, db, key, ev) ==
            match Replayed(sched, db, key, ev)
            case None => None
            case Some(db') => Some((db', Applied))
  {
    hide Listing, Insert, InsertPos, Fold, Logged, MemoryOf, Prior;
    var rows, prior := Listing(db.log, key), Prior(db.states, key);
    var s := Fold(sched, key, rows).value;
    assert |rows + [ev]| - 1 == |rows| && (rows + [ev])[|rows|] == ev;
    assert ElapsedDays(prior, ev.at) == ElapsedDays(s, ev.at);
    UpsertsForward(db.states, key, ev);
  }

  lemma UpsertsForward(states: map<Key, StateRow>, key: Key, ev: Review)
    requires match Prior(states, key).lastReview case None => true case Some(lr) => ev.at > lr
    ensures forall o, elapsed ::
              UpsertOnReview(states, key, o, elapsed, ev.at) == states[key := StateRow(o, elapsed, Some(ev.at), SettingsOf(states, key))]
  {
  }

  // A review behind the stored one is appended to the card's history.
  lemma ForwardInserts(sched: Scheduler, db: Db, key: Key, ev: Review)
    requires Coherent(sched, db)
    requires match Prior(db.states, key).lastReview case None => true case Some(lr) => ev.at > lr
    ensures var rows := Listing(db.log, key);
            && InsertPos(rows, ev) == |rows| && rows[..|rows|] == rows
            && Insert(rows, ev) == rows + [ev] && (rows + [ev])[..|rows|] == rows
  {
    var rows := Listing(db.log, key);
    LastReviewIsLatest(sched, db, key);
    ListingSorted(db.log, key);
    hide Coherent, Listing;
    forall i | 0 <= i < |rows| ensures !Before(ev, rows[i]) {
      assert rows[i] in rows;
    }
    InsertPosIsBoundary(rows, ev, |rows|);
    InsertSplits(rows, ev);
  }

  /** The logged row: the review, its card, the state the review met, the midnights since that state's
      last review, and the days the answer schedules. On a coherent card the state is the replay of the
      card's earlier reviews. */
  lemma LoggedRowTells(sched: Scheduler, db: Db, key: Key, ev: Review) returns (met: CardState)
    requires IgnoresDueOfNew(sched) && Coherent(sched, db) && !Logged(db.log, ev.id)
    requires Prior(db.states, key).lastReview != Some(ev.at)
    requires Graded(sched, db, key, ev).Some?
    ensures var rows := Listing(db.log, key);
            Fold(sched, key, rows[..InsertPos(rows, ev)]) == Some(met)
    ensures var log := Graded(sched, db, key, ev).value.0.log;
            && |log| == |db.log| + 1 && log[..|db.log|] == db.log
            && var row := log[|db.log|];
            && row.key == key && row.review == ev
            && row.before.state == met.sched.state && row.before.learningSteps == met.sched.learningSteps
            && row.before.stability == met.sched.stability && row.before.difficulty == met.sched.difficulty
            && row.elapsedDaysBefore == (if met.lastReview.None? then 0 else Midnights(met.lastReview.value, ev.at))
            && sched(key, met, ev.rating, ev.at).Some?
            && row.scheduledDaysAfter == sched(key, met, ev.rating, ev.at).value.scheduledDays
  {
    GradedIsReplayed(sched, db, key, ev);
    var rows := Listing(db.log, key);
    met := Fold(sched, key, rows[..InsertPos(rows, ev)]).value;
    ElapsedIsMidnights(met, ev.at);
    hide Graded, Listing, Insert, InsertPos, Fold, Coherent, IgnoresDueOfNew, Logged, ElapsedDays, Midnights;
  }

  // Coherence of a card reads its history and its own state row, nothing else.
  lemma CoherentLocal(sched: Scheduler, a: Db, b: Db, key: Key)
    requires CoherentAt(sched, a, key)
    requires Listing(a.log, key) == Listing(b.log, key)
    requires key in a.states <==> key in b.states
    requires key in a.states ==> a.states[key] == b.states[key]
    ensures CoherentAt(sched, b, key)
  {
  }

  // What a replay leaves behind is coherent, and no other card is touched.
  lemma ReplayedIsCoherent(sched: Scheduler, db: Db, key: Key, ev: Review)
    requires Coherent(sched, db)
    requires !Logged(db.log, ev.id)
    requires Replayed(sched, db, key, ev).Some?
    ensures Coherent(sched, Replayed(sched, db, key, ev).value)
  {
    var db' := Replayed(sched, db, key, ev).value;
    var row := db'.log[|db.log|];
    assert db'.log == db.log + [row];
    forall k ensures CoherentAt(sched, db', k) {
      ListingAppend(db.log, row, k);
      if k == key {
        ReplayedOwn(sched, db, key, ev);
      } else {
        CoherentLocal(sched, db, db', k);
      }
    }
  }

  lemma ReplayedOwn(sched: Scheduler, db: Db, key: Key, ev: Review)
    requires Replayed(sched, db, key, ev).Some?
    ensures CoherentAt(sched, Replayed(sched, db, key, ev).value, key)
  {
    var db' := Replayed(sched, db, key, ev).value;
    var merged := Insert(Listing(db.log, key), ev);
    ListingAppend(db.log, db'.log[|db.log|], key);
    InsertSplits(Listing(db.log, key), ev);
    LastAtIsFolded(sched, key, merged);
  }

  lemma LastAtIsFolded(sched: Scheduler, key: Key, rows: seq<Review>)
    requires rows != [] && Fold(sched, key, rows).Some?
    ensures Fold(sched, key, rows).value.lastReview == Some(rows[|rows| - 1].at)
  {
  }

  /** Convergence, one step: the claim survives every grade whose instant is not the stored one,
      late, early, repeated or new. */
  lemma GradeKeepsCoherent(sched: Scheduler, db: Db, key: Key, ev: Review)
    requires IgnoresDueOfNew(sched) && Coherent(sched, db)
    requires Graded(sched, db, key, ev).Some?
    requires Logged(db.log, ev.id) || Prior(db.states, key).lastReview != Some(ev.at)
    ensures Coherent(sched, Graded(sched, db, key, ev).value.0)
  {
    if !Logged(db.log, ev.id) {
      GradedIsReplayed(sched, db, key, ev);
      ReplayedIsCoherent(sched, db, key, ev);
    }
  }

  ghost predicate InLog(log: seq<LogRow>, key: Key, r: Review) {
    exists i :: 0 <= i < |log| && log[i].key == key && log[i].review == r
  }

  /** A coherent card's history and state are determined by the set of its logged reviews alone. */
  lemma SameLogSameState(sched: Scheduler, x: Db, y: Db, key: Key)
    requires Coherent(sched, x) && Coherent(sched, y)
    requires forall r :: InLog(x.log, key, r) <==> InLog(y.log, key, r)
    ensures Listing(x.log, key) == Listing(y.log, key)
    ensures (exists r :: InLog(x.log, key, r)) ==>
              && key in x.states && key in y.states
              && x.states[key].(settings := DEFAULT_SETTINGS) == y.states[key].(settings := DEFAULT_SETTINGS)
  {
    ListingSorted(x.log, key);
    ListingSorted(y.log, key);
    ListingElements(x.log, key);
    ListingElements(y.log, key);
    forall r ensures r in Listing(x.log, key) <==> r in Listing(y.log, key) {
      assert r in Listing(x.log, key) <==> InLog(x.log, key, r);
      assert r in Listing(y.log, key) <==> InLog(y.log, key, r);
    }
    SortedIsUnique(Listing(x.log, key), Listing(y.log, key));
    assert CoherentAt(sched, x, key) && CoherentAt(sched, y, key);
    if r :| InLog(x.log, key, r) {
      assert r in Listing(x.log, key);
    }
  }

  ghost predicate CountsReviews(sched: Scheduler) {
    forall key, s, rating, at ::
      sched(key, s, rating, at).Some? ==> sched(key, s, rating, at).value.reps == s.sched.reps + 1
  }

  lemma {:induction false} FoldCounts(sched: Scheduler, key: Key, rows: seq<Review>)
    requires CountsReviews(sched)
    requires Fold(sched, key, rows).Some?
    ensures Fold(sched, key, rows).value.sched.reps == |rows|
  {
    if rows != [] {
      FoldCounts(sched, key, rows[..|rows| - 1]);
    }
  }

  /** The exact boundary of the claim: under any scheduler that counts reviews, a new grade keeps a
      coherent card coherent if and only if its instant differs from the stored last_review. */
  lemma EqualInstantIsTheOnlyLoss(sched: Scheduler, db: Db, key: Key, ev: Review)
    requires IgnoresDueOfNew(sched) && CountsReviews(sched) && Coherent(sched, db)
    requires !Logged(db.log, ev.id)
    requires Graded(sched, db, key, ev).Some?
    ensures CoherentAt(sched, Graded(sched, db, key, ev).value.0, key) <==>
            Prior(db.states, key).lastReview != Some(ev.at)
  {
    if Prior(db.states, key).lastReview != Some(ev.at) {
      GradeKeepsCoherent(sched, db, key, ev);
    } else {
      var db' := Graded(sched, db, key, ev).value.0;
      var rows, rows' := Listing(db.log, key), Listing(db'.log, key);
      assert CoherentAt(sched, db, key);
      ListingAppend(db.log, db'.log[|db.log|], key);
      InsertSplits(rows, ev);
      FoldCounts(sched, key, rows);
      if Fold(sched, key, rows').Some? {
        FoldCounts(sched, key, rows');
      }
    }
  }
}
