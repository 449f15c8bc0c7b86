/** The append-only review log, the scheduler it is folded through, and the order in which a
    card's rows are replayed (internal/review/replay.go, internal/review/grade.go). */
module ReviewLog {
  import opened Sorting
  import opened Wrappers

  type Id = int        // a UUID; `<` is its byte order
  type Instant = int   // microseconds, the resolution every stored time has
  type Rating = int

  datatype Key = Key(user: Id, card: Id)

  // What one rating produces; every field is stored in user_card_state.
  datatype Outcome = Outcome(
    due: Instant, stability: real, difficulty: real, state: nat, reps: nat, lapses: nat,
    scheduledDays: nat, learningSteps: nat)

  // The prior state the scheduler reads. `lastReview` is None for a never-reviewed card.
  datatype CardState = CardState(sched: Outcome, lastReview: Option<Instant>)

  const NEVER_SEEN := CardState(Outcome(0, 0.0, 0.0, 0, 0, 0, 0, 0), None)

  // FSRS, uninterpreted: a fixed pure function of the card (which selects the parameters), its
  // prior state, the rating and the instant. None is a scheduling error.
  type Scheduler = (Key, CardState, Rating, Instant) -> Option<Outcome>

  // One row of a card's history as a replay reads it.
  datatype Review = Review(id: Id, rating: Rating, at: Instant)

  // ORDER BY reviewed_at, id.
  predicate Before(a: Review, b: Review) {
    a.at < b.at || (a.at == b.at && a.id < b.id)
  }

  ghost predicate Sorted(rows: seq<Review>) {
    forall i, j :: 0 <= i < j < |rows| ==> Before(rows[i], rows[j])
  }

  /** A sorted history runs from its earliest review to its latest, equal instants by ascending id. */
  lemma SortedRuns(rows: seq<Review>)
    ensures Sorted(rows) <==>
            forall i, j :: 0 <= i < j < |rows| ==>
              rows[i].at <= rows[j].at && (rows[i].at == rows[j].at ==> rows[i].id < rows[j].id)
  {
  }

  function Step(sched: Scheduler, key: Key, prior: CardState, r: Review): Option<CardState> {
    match sched(key, prior, r.rating, r.at)
    case None => None
    case Some(o) => Some(CardState(o, Some(r.at)))
  }

  /** The state after a whole history: the left fold of the scheduler from the never-seen state. */
  function Fold(sched: Scheduler, key: Key, rows: seq<Review>): Option<CardState> {
    if rows == [] then Some(NEVER_SEEN)
    else
      match Fold(sched, key, rows[..|rows| - 1])
      case None => None
      case Some(s) => Step(sched, key, s, rows[|rows| - 1])
  }

  lemma {:induction false} FoldPrefix(sched: Scheduler, key: Key, rows: seq<Review>, n: nat)
    requires n <= |rows|
    requires Fold(sched, key, rows).Some?
    ensures Fold(sched, key, rows[..n]).Some?
  {
    if n < |rows| {
      var init := rows[..|rows| - 1];
      FoldPrefix(sched, key, init, n);
      assert init[..n] == rows[..n];
    } else {
      assert rows[..n] == rows;
    }
  }

  /** Ordered insertion, stated one row at a time from the end. */
  function Insert(rows: seq<Review>, r: Review): seq<Review> {
    if rows == [] || !Before(r, rows[|rows| - 1]) then rows + [r]
    else Insert(rows[..|rows| - 1], r) + [rows[|rows| - 1]]
  }

  /** The index at which Insert puts r. */
  function InsertPos(rows: seq<Review>, r: Review): (p: nat)
    ensures p <= |rows|
  {
    if rows == [] || !Before(r, rows[|rows| - 1]) then |rows|
    else InsertPos(rows[..|rows| - 1], r)
  }

  lemma {:induction false} InsertSplits(rows: seq<Review>, r: Review)
    ensures var p := InsertPos(rows, r); Insert(rows, r) == rows[..p] + [r] + rows[p..]
  {
    var p := InsertPos(rows, r);
    if rows == [] || !Before(r, rows[|rows| - 1]) {
      assert rows[..p] == rows;
    } else {
      var init := rows[..|rows| - 1];
      InsertSplits(init, r);
      assert init[..p] == rows[..p];
      assert rows[p..] == init[p..] + [rows[|rows| - 1]];
    }
  }

  // Among sorted rows the position is the boundary a binary search finds.
  lemma {:induction false} InsertPosIsBoundary(rows: seq<Review>, r: Review, n: nat)
    requires n <= |rows|
    requires forall i :: 0 <= i < n ==> !Before(r, rows[i])
    requires forall i :: n <= i < |rows| ==> Before(r, rows[i])
    ensures InsertPos(rows, r) == n
  {
    if n < |rows| {
      InsertPosIsBoundary(rows[..|rows| - 1], r, n);
    }
  }

  predicate Fresh(rows: seq<Review>, id: Id) {
    forall i :: 0 <= i < |rows| ==> rows[i].id != id
  }

  lemma {:induction false} InsertElements(rows: seq<Review>, r: Review)
    ensures multiset(Insert(rows, r)) == multiset(rows) + multiset{r}
    ensures forall x :: x in Insert(rows, r) <==> x in rows || x == r
  {
    if rows == [] || !Before(r, rows[|rows| - 1]) {
    } else {
      var init := rows[..|rows| - 1];
      assert rows == init + [rows[|rows| - 1]];
      InsertElements(init, r);
    }
    assert forall x :: x in Insert(rows, r) <==> x in multiset(Insert(rows, r));
  }

  lemma {:induction false} InsertKeepsSorted(rows: seq<Review>, r: Review)
    requires Sorted(rows) && Fresh(rows, r.id)
    ensures Sorted(Insert(rows, r))
  {
    if rows == [] || !Before(r, rows[|rows| - 1]) {
    } else {
      var init, last := rows[..|rows| - 1], rows[|rows| - 1];
      InsertKeepsSorted(init, r);
      InsertElements(init, r);
      var ins := Insert(init, r);
      forall i | 0 <= i < |ins| ensures Before(ins[i], last) {
        assert ins[i] in ins;
        if ins[i] != r {
          var k :| 0 <= k < |init| && init[k] == ins[i];
          assert Before(rows[k], rows[|rows| - 1]);
        }
      }
    }
  }

  // A history is determined by its set of rows: sorting leaves no choice.
  lemma {:induction false} SortedIsUnique(a: seq<Review>, b: seq<Review>)
    requires Sorted(a) && Sorted(b)
    requires forall x :: x in a <==> x in b
    ensures a == b
  {
    if a == [] {
      HasElement(b);
    } else {
      var x := a[|a| - 1];
      assert x in a && x in b;
      var y := b[|b| - 1];
      assert y in b && y in a;
      var i :| 0 <= i < |b| && b[i] == x;
      var j :| 0 <= j < |a| && a[j] == y;
      assert x == y;
      var a', b' := a[..|a| - 1], b[..|b| - 1];
      forall z ensures z in a' <==> z in b' {
        if z in a' {
          var k :| 0 <= k < |a'| && a'[k] == z;
          assert Before(a[k], x) && z in a && z in b;
        }
        if z in b' {
          var k :| 0 <= k < |b'| && b'[k] == z;
          assert Before(b[k], y) && z in b && z in a;
        }
      }
      SortedIsUnique(a', b');
    }
  }

  // The state_before, learning_steps_before, stability_before and difficulty_before columns.
  datatype Memory = Memory(state: nat, learningSteps: nat, stability: real, difficulty: real)

  function MemoryOf(s: CardState): Memory {
    Memory(s.sched.state, s.sched.learningSteps, s.sched.stability, s.sched.difficulty)
  }

  // The log table; review_kind is a function of before.state.
  datatype LogRow = LogRow(
    key: Key, review: Review, before: Memory, elapsedDaysBefore: nat, scheduledDaysAfter: nat)

  ghost predicate UniqueIds(log: seq<LogRow>) {
    forall i, j :: 0 <= i < j < |log| ==> log[i].review.id != log[j].review.id
  }

  predicate Logged(log: seq<LogRow>, id: Id) {
    exists i :: 0 <= i < |log| && log[i].review.id == id
  }

  /** ListReviewLogForCard: the card's rows ORDER BY reviewed_at, id. */
  function Listing(log: seq<LogRow>, key: Key): seq<Review> {
    if log == [] then []
    else
      var rest := Listing(log[..|log| - 1], key);
      var row := log[|log| - 1];
      if row.key == key then Insert(rest, row.review) else rest
  }

  lemma {:induction false} ListingElements(log: seq<LogRow>, key: Key)
    ensures forall x :: x in Listing(log, key) <==>
                        exists i :: 0 <= i < |log| && log[i].key == key && log[i].review == x
  {
    if log != [] {
      var init, row := log[..|log| - 1], log[|log| - 1];
      ListingElements(init, key);
      InsertElements(Listing(init, key), row.review);
      forall x ensures x in Listing(log, key) <==>
                       exists i :: 0 <= i < |log| && log[i].key == key && log[i].review == x
      {
        if x in Listing(log, key) {
          if x in Listing(init, key) {
            var i :| 0 <= i < |init| && init[i].key == key && init[i].review == x;
            assert log[i].key == key && log[i].review == x;
          } else {
            assert log[|log| - 1].key == key;
          }
        }
        if i :| 0 <= i < |log| && log[i].key == key && log[i].review == x {
          assert i < |init| ==> init[i].key == key && init[i].review == x;
        }
      }
    }
  }

  lemma ListingFresh(log: seq<LogRow>, key: Key, id: Id)
    requires !Logged(log, id)
    ensures Fresh(Listing(log, key), id)
  {
    ListingElements(log, key);
    forall i | 0 <= i < |Listing(log, key)| ensures Listing(log, key)[i].id != id {
      assert Listing(log, key)[i] in Listing(log, key);
    }
  }

  lemma {:induction false} ListingSorted(log: seq<LogRow>, key: Key)
    requires UniqueIds(log)
    ensures Sorted(Listing(log, key))
  {
    if log != [] {
      var init, row := log[..|log| - 1], log[|log| - 1];
      ListingSorted(init, key);
      if row.key == key {
        ListingFresh(init, key, row.review.id);
        InsertKeepsSorted(Listing(init, key), row.review);
      }
    }
  }

  lemma ListingAppend(log: seq<LogRow>, row: LogRow, key: Key)
    ensures Listing(log + [row], key) ==
            if row.key == key then Insert(Listing(log, key), row.review) else Listing(log, key)
  {
    assert (log + [row])[..|log|] == log;
  }
}
