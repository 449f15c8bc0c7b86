/** POST /api/reviews/batch inside one transaction: clamping, authorisation, sorted locks,
    idempotency, and the grades themselves (internal/review/grade.go, internal/review/lock.go). */
module GradeBatch {
  import opened Wrappers
  import opened ReviewLog
  import opened Grading
  import opened Sorting

  const CLAMP_FORWARD_WINDOW := 5 * 60 * 1_000_000
  const REJECT_PAST_WINDOW := 30 * DAY

  // A submitted event and the clock are read in nanoseconds and truncated to microseconds.
  function Truncate(ns: int): (us: Instant)
    ensures 1000 * us <= ns < 1000 * (us + 1)
  {
    ns / 1000
  }

  /** The believability policy: None is a terminal rejection. */
  function ClampOrReject(reviewedAt: int, now: int): (r: Option<Instant>)
    ensures r.None? <==> !(Truncate(now) - REJECT_PAST_WINDOW <= Truncate(reviewedAt)
                           <= Truncate(now) + CLAMP_FORWARD_WINDOW)
    ensures r.Some? ==> r.value <= Truncate(now) && r.value <= Truncate(reviewedAt)
    ensures r.Some? ==> r.value == Truncate(reviewedAt) || r.value == Truncate(now)
  {
    var at, n := Truncate(reviewedAt), Truncate(now);
    if at > n + CLAMP_FORWARD_WINDOW then None
    else if at < n - REJECT_PAST_WINDOW then None
    else if at > n then Some(n)
    else Some(at)
  }

  /** Two reviews land on one instant exactly when they truncate alike or both lie in the future:
      the clamp is how honest clients reach the equal-instant case. */
  lemma ClampCollides(a: int, b: int, now: int)
    requires ClampOrReject(a, now).Some? && ClampOrReject(b, now).Some?
    ensures ClampOrReject(a, now) == ClampOrReject(b, now) <==>
            Truncate(a) == Truncate(b) || (Truncate(a) >= Truncate(now) && Truncate(b) >= Truncate(now))
  {
  }

  datatype Event = Event(id: Id, card: Id, rating: Rating, reviewedAt: int)

  // An accepted event: its card and the review it will log.
  datatype Pending = Pending(card: Id, review: Review)

  datatype Res = Res(id: Id, card: Id, status: Status, after: Option<CardState>)

  datatype BatchError = ScheduleFailed

  function Accept(ev: Event, at: Instant): Pending {
    Pending(ev.card, Review(ev.id, ev.rating, at))
  }

  function Filter<T>(s: seq<T>, p: T -> bool): seq<T> {
    if s == [] then []
    else
      var init := Filter(s[..|s| - 1], p);
      if p(s[|s| - 1]) then init + [s[|s| - 1]] else init
  }

  lemma {:induction false} FilterElements<T>(s: seq<T>, p: T -> bool)
    ensures forall x :: x in Filter(s, p) <==> x in s && p(x)
  {
    if s != [] {
      FilterElements(s[..|s| - 1], p);
      assert s == s[..|s| - 1] + [s[|s| - 1]];
    }
  }

  function Live(evs: seq<Event>, now: int): seq<Pending> {
    if evs == [] then []
    else
      var init, ev := Live(evs[..|evs| - 1], now), evs[|evs| - 1];
      match ClampOrReject(ev.reviewedAt, now)
      case None => init
      case Some(at) => init + [Accept(ev, at)]
  }

  lemma {:induction false} LiveElements(evs: seq<Event>, now: int)
    ensures forall p :: p in Live(evs, now) <==> exists ev :: ev in evs && AcceptedAs(ev, now, p)
  {
    if evs != [] {
      var init, ev := evs[..|evs| - 1], evs[|evs| - 1];
      LiveElements(init, now);
      assert evs == init + [ev];
      forall p ensures p in Live(evs, now) <==> exists e :: e in evs && AcceptedAs(e, now, p) {
        if p in Live(init, now) {
          var e :| e in init && AcceptedAs(e, now, p);
          assert e in evs;
        } else if p in Live(evs, now) {
          assert AcceptedAs(ev, now, p);
        }
        if e :| e in evs && AcceptedAs(e, now, p) {
          assert e in init || e == ev;
        }
      }
    }
  }

  predicate AcceptedAs(ev: Event, now: int, p: Pending) {
    ClampOrReject(ev.reviewedAt, now).Some? && p == Accept(ev, ClampOrReject(ev.reviewedAt, now).value)
  }

  function ToGrade(evs: seq<Event>, now: int, studyable: set<Id>): seq<Pending> {
    Filter(Live(evs, now), (p: Pending) => p.card in studyable)
  }

  function FreshOf(evs: seq<Event>, now: int, studyable: set<Id>, log: seq<LogRow>): seq<Pending> {
    Filter(ToGrade(evs, now, studyable), (p: Pending) => !Logged(log, p.review.id))
  }

  ghost predicate UniqueEvents(evs: seq<Event>) {
    forall i, j :: 0 <= i < j < |evs| ==> evs[i].id != evs[j].id
  }

  /** What the response must say of an event when the request does not reuse ids. */
  function StatusOf(ev: Event, now: int, studyable: set<Id>, log: seq<LogRow>): Status {
    if ClampOrReject(ev.reviewedAt, now).None? then Rejected
    else if ev.card !in studyable then Forbidden
    else if Logged(log, ev.id) then Duplicate
    else Applied
  }

  /** The effect of a batch on the tables: its grades one after the other. */
  function RunGrades(sched: Scheduler, db: Db, user: Id, ps: seq<Pending>): Option<Db> {
    if ps == [] then Some(db)
    else
      match RunGrades(sched, db, user, ps[..|ps| - 1])
      case None => None
      case Some(d) =>
        var p := ps[|ps| - 1];
        match Graded(sched, d, Key(user, p.card), p.review)
        case None => None
        case Some(r) => Some(r.0)
  }

  // Reviewed_at order with ties broken on id.
  ghost predicate InLogOrder(ps: seq<Pending>) {
    forall i, j :: 0 <= i < j < |ps| ==>
      ps[i].review.at < ps[j].review.at || (ps[i].review.at == ps[j].review.at && ps[i].review.id <= ps[j].review.id)
  }

  ghost predicate Ascending(keys: seq<int>) {
    forall i, j :: 0 <= i < j < |keys| ==> keys[i] < keys[j]
  }

  ghost predicate KeysOf(keys: seq<int>, lockKey: Key -> int, user: Id, cards: seq<Id>) {
    forall k :: k in keys <==> exists c :: c in cards && lockKey(Key(user, c)) == k
  }

  function CardsOf(ps: seq<Pending>): seq<Id> {
    seq(|ps|, i requires 0 <= i < |ps| => ps[i].card)
  }

  /** The deduped, ascending lock keys of a card list, hash collisions included. */
  method SortedKeys(lockKey: Key -> int, user: Id, cards: seq<Id>) returns (keys: seq<int>)
    ensures Ascending(keys)
    ensures KeysOf(keys, lockKey, user, cards)
  {
    var seen: set<int> := {};
    keys := [];
    for i := 0 to |cards|
      invariant forall k :: k in keys <==> k in seen
      invariant forall i, j :: 0 <= i < j < |keys| ==> keys[i] != keys[j]
      invariant KeysOf(keys, lockKey, user, cards[..i])
    {
      var k := lockKey(Key(user, cards[i]));
      assert cards[..i + 1] == cards[..i] + [cards[i]];
      if k !in seen {
        seen := seen + {k};
        keys := keys + [k];
      }
    }
    assert cards[..|cards|] == cards;
    var sorted := Sort(keys, (a: int, b: int) => a < b);
    PermutationElements(sorted, keys);
    keys := sorted;
  }

  /** Go's binary search splices ev where ordered insertion would. */
  method InsertSorted(rows: seq<Review>, ev: Review) returns (merged: seq<Review>, idx: nat)
    requires Sorted(rows)
    ensures merged == Insert(rows, ev)
    ensures idx == InsertPos(rows, ev) && merged == rows[..idx] + [ev] + rows[idx..]
  {
    var lo, hi := 0, |rows|;
    while lo < hi
      invariant 0 <= lo <= hi <= |rows|
      invariant forall i :: 0 <= i < lo ==> !Before(ev, rows[i])
      invariant forall i :: hi <= i < |rows| ==> Before(ev, rows[i])
    {
      var h := (lo + hi) / 2;
      if !Before(ev, rows[h]) { lo := h + 1; } else { hi := h; }
    }
    InsertPosIsBoundary(rows, ev, lo);
    InsertSplits(rows, ev);
    idx := lo;
    merged := rows[..idx] + [ev] + rows[idx..];
  }

  /** replayStates: the state before each row, and the state after the last one. */
  method ReplayStates(sched: Scheduler, key: Key, rows: seq<Review>)
    returns (r: Option<(seq<CardState>, CardState)>)
    ensures r.Some? <==> Fold(sched, key, rows).Some?
    ensures r.Some? ==> Fold(sched, key, rows) == Some(r.value.1)
    ensures r.Some? ==> |r.value.0| == |rows| &&
                        forall i :: 0 <= i < |rows| ==> Fold(sched, key, rows[..i]) == Some(r.value.0[i])
  {
    var priors, state := [], NEVER_SEEN;
    for i := 0 to |rows|
      invariant |priors| == i
      invariant Fold(sched, key, rows[..i]) == Some(state)
      invariant forall j :: 0 <= j < i ==> Fold(sched, key, rows[..j]) == Some(priors[j])
    {
      assert rows[..i + 1][..i] == rows[..i];
      priors := priors + [state];
      match sched(key, state, rows[i].rating, rows[i].at) {
        case None =>
          if Fold(sched, key, rows).Some? { FoldPrefix(sched, key, rows, i + 1); }
          return None;
        case Some(o) => state := CardState(o, Some(rows[i].at));
      }
    }
    assert rows[..|rows|] == rows;
    r := Some((priors, state));
  }

  // What an entry may say: the true status of a request event with that id, except that the second
  // use of one id inside a batch is answered as a duplicate.
  ghost predicate Explains(ev: Event, res: Res, now: int, studyable: set<Id>, log: seq<LogRow>, strict: bool) {
    var status := StatusOf(ev, now, studyable, log);
    && ev.id == res.id && ev.card == res.card
    && (res.status == status || (!strict && status == Applied && res.status == Duplicate))
    && (res.status in {Forbidden, Rejected} ==> res.after.None?)
  }

  ghost predicate Faithful(results: map<Id, Res>, evs: seq<Event>, now: int, studyable: set<Id>,
                           log: seq<LogRow>)
  {
    forall id :: id in results ==>
      && results[id].id == id
      && exists ev :: ev in evs && Explains(ev, results[id], now, studyable, log, UniqueEvents(evs))
  }

  // Events whose answer is settled before any lock is taken, or by the idempotency check.
  ghost predicate Settled(results: map<Id, Res>, evs: seq<Event>, now: int, studyable: set<Id>,
                          log: seq<LogRow>, statuses: set<Status>)
  {
    forall ev :: ev in evs && StatusOf(ev, now, studyable, log) in statuses ==> ev.id in results
  }

  // An answer that explains one event of the request may be recorded.
  lemma FaithfulAdd(results: map<Id, Res>, evs: seq<Event>, now: int, studyable: set<Id>, log: seq<LogRow>, ev: Event, res: Res)
    requires Faithful(results, evs, now, studyable, log)
    requires ev in evs && Explains(ev, res, now, studyable, log, UniqueEvents(evs))
    ensures Faithful(results[res.id := res], evs, now, studyable, log)
  {
    hide StatusOf, UniqueEvents;
  }

  lemma ScreenedOne(results: map<Id, Res>, evs: seq<Event>, ev: Event, now: int, studyable: set<Id>, log: seq<LogRow>)
    requires Settled(results, evs, now, studyable, log, {Rejected})
    requires ClampOrReject(ev.reviewedAt, now).None? ==> ev.id in results
    ensures Settled(results, evs + [ev], now, studyable, log, {Rejected})
  {
  }

  lemma LiveSnoc(evs: seq<Event>, ev: Event, now: int)
    ensures Live(evs + [ev], now) ==
            match ClampOrReject(ev.reviewedAt, now)
            case None => Live(evs, now)
            case Some(at) => Live(evs, now) + [Accept(ev, at)]
  {
    assert (evs + [ev])[..|evs|] == evs;
  }

  // ---- What an answer reports ----

  function RowOf(db: Db, key: Key): Option<CardState> {
    if key in db.states then Some(StateOf(db.states[key])) else None
  }

  // Where an id is graded last.
  function LastUse(ps: seq<Pending>, id: Id): (k: int)
    ensures -1 <= k < |ps| && (k >= 0 ==> ps[k].review.id == id)
    ensures forall j :: k < j < |ps| ==> ps[j].review.id != id
  {
    if ps == [] then -1
    else if ps[|ps| - 1].review.id == id then |ps| - 1
    else LastUse(ps[..|ps| - 1], id)
  }

  /** An answer is what the last grade of its id said when its turn came: its status, and its card's row
      just behind it. An id that was not graded was a duplicate, answered with the row from before the
      batch, or was turned away without a state. */
  predicate ReportsOne(res: Res, sched: Scheduler, db: Db, user: Id, ps: seq<Pending>) {
    var k := LastUse(ps, res.id);
    if k < 0 then
      res.status != Applied && res.after == if res.status == Duplicate then RowOf(db, Key(user, res.card)) else None
    else
      && res.card == ps[k].card && RunGrades(sched, db, user, ps[..k]).Some?
      && var g := Graded(sched, RunGrades(sched, db, user, ps[..k]).value, Key(user, res.card), ps[k].review);
         g.Some? && res.status == g.value.1 && res.after == RowOf(g.value.0, Key(user, res.card))
  }

  ghost predicate Reports(results: map<Id, Res>, sched: Scheduler, db: Db, user: Id, ps: seq<Pending>) {
    forall id :: id in results ==> results[id].id == id && ReportsOne(results[id], sched, db, user, ps)
  }

  // Turned away: no state to report.
  ghost predicate TurnedAway(results: map<Id, Res>) {
    forall id :: id in results ==> results[id].id == id && results[id].after.None? && results[id].status in {Rejected, Forbidden}
  }

  lemma AwayReports(results: map<Id, Res>, sched: Scheduler, db: Db, user: Id)
    requires TurnedAway(results)
    ensures Reports(results, sched, db, user, [])
  {
  }

  lemma ReportDuplicate(results: map<Id, Res>, sched: Scheduler, db: Db, user: Id, res: Res)
    requires Reports(results, sched, db, user, [])
    requires res.status == Duplicate && res.after == RowOf(db, Key(user, res.card))
    ensures Reports(results[res.id := res], sched, db, user, [])
  {
  }

  // One more grade, and its answer.
  lemma ReportGrade(results: map<Id, Res>, sched: Scheduler, db: Db, user: Id, ps: seq<Pending>, k: nat, d: Db, res: Res)
    requires k < |ps| && Reports(results, sched, db, user, ps[..k]) && RunGrades(sched, db, user, ps[..k]) == Some(d)
    requires res.id == ps[k].review.id && res.card == ps[k].card
    requires var g := Graded(sched, d, Key(user, res.card), ps[k].review);
             g.Some? && res.status == g.value.1 && res.after == RowOf(g.value.0, Key(user, res.card))
    ensures Reports(results[res.id := res], sched, db, user, ps[..k + 1])
  {
    hide Graded, RowOf, RunGrades;
    assert ps[..k + 1][..k] == ps[..k];
    forall id | id in results && id != res.id ensures ReportsOne(results[id], sched, db, user, ps[..k + 1]) {
      assert ReportsOne(results[id], sched, db, user, ps[..k]);
      var j := LastUse(ps[..k], id);
      assert LastUse(ps[..k + 1], id) == j;
      if j >= 0 { assert ps[..k + 1][..j] == ps[..k][..j]; }
    }
  }

  method Screen(evs: seq<Event>, now: int, ghost studyable: set<Id>, ghost log: seq<LogRow>)
    returns (live: seq<Pending>, results: map<Id, Res>)
    ensures live == Live(evs, now)
    ensures Faithful(results, evs, now, studyable, log)
    ensures Settled(results, evs, now, studyable, log, {Rejected}) && TurnedAway(results)
  {
    hide Live, Faithful, Settled, UniqueEvents;
    live, results := [], map[];
    NothingYet(evs, now, studyable, log);
    for i := 0 to |evs|
      invariant live == Live(evs[..i], now)
      invariant Faithful(results, evs, now, studyable, log)
      invariant Settled(results, evs[..i], now, studyable, log, {Rejected}) && TurnedAway(results)
    {
      var ev := evs[i];
      assert evs[..i + 1] == evs[..i] + [ev] && ev in evs;
      LiveSnoc(evs[..i], ev, now);
      match ClampOrReject(ev.reviewedAt, now) {
        case None =>
          var res := Res(ev.id, ev.card, Rejected, None);
          FaithfulAdd(results, evs, now, studyable, log, ev, res);
          SettledMore(results, results[ev.id := res], evs[..i], now, studyable, log, {Rejected});
          results := results[ev.id := res];
        case Some(at) => live := live + [Accept(ev, at)];
      }
      ScreenedOne(results, evs[..i], ev, now, studyable, log);
    }
    assert evs[..|evs|] == evs;
  }

  lemma NothingYet(evs: seq<Event>, now: int, studyable: set<Id>, log: seq<LogRow>)
    ensures evs[..0] == [] && Live([], now) == []
    ensures Faithful(map[], evs, now, studyable, log) && Settled(map[], [], now, studyable, log, {Rejected})
  {
  }

  lemma SettledMore(results: map<Id, Res>, more: map<Id, Res>, evs: seq<Event>, now: int, studyable: set<Id>,
                    log: seq<LogRow>, statuses: set<Status>)
    requires Settled(results, evs, now, studyable, log, statuses) && results.Keys <= more.Keys
    ensures Settled(more, evs, now, studyable, log, statuses)
  {
  }

  method Authorise(evs: seq<Event>, now: int, studyable: set<Id>, ghost log: seq<LogRow>,
                   live: seq<Pending>, screened: map<Id, Res>)
    returns (toGrade: seq<Pending>, results: map<Id, Res>)
    requires live == Live(evs, now)
    requires Faithful(screened, evs, now, studyable, log)
    requires Settled(screened, evs, now, studyable, log, {Rejected}) && TurnedAway(screened)
    ensures toGrade == ToGrade(evs, now, studyable)
    ensures Faithful(results, evs, now, studyable, log)
    ensures Settled(results, evs, now, studyable, log, {Rejected, Forbidden}) && TurnedAway(results)
  {
    hide Faithful, Settled, UniqueEvents, Explains, AcceptedAs, Live, TurnedAway;
    toGrade, results := [], screened;
    LiveElements(evs, now);
    ghost var may := (p: Pending) => p.card in studyable;
    for i := 0 to |live|
      invariant toGrade == Filter(live[..i], may)
      invariant Faithful(results, evs, now, studyable, log)
      invariant Settled(results, evs, now, studyable, log, {Rejected}) && TurnedAway(results)
      invariant forall p :: p in live[..i] && p.card !in studyable ==> p.review.id in results
    {
      var p := live[i];
      assert live[..i + 1] == live[..i] + [p] && p in live;
      assert live[..i + 1][..i] == live[..i];
      if p.card in studyable {
        toGrade := toGrade + [p];
      } else {
        ghost var ev :| ev in evs && AcceptedAs(ev, now, p);
        var res := Res(p.review.id, p.card, Forbidden, None);
        ForbiddenExplained(ev, now, p, studyable, log, UniqueEvents(evs));
        FaithfulAdd(results, evs, now, studyable, log, ev, res);
        SettledMore(results, results[p.review.id := res], evs, now, studyable, log, {Rejected});
        AwayMore(results, res);
        results := results[p.review.id := res];
      }
    }
    assert live[..|live|] == live;
    SameFilter(live, may, (p: Pending) => p.card in studyable);
    ForbiddenSettled(results, evs, now, studyable, log);
  }

  lemma AwayMore(results: map<Id, Res>, res: Res)
    requires TurnedAway(results) && res.after.None? && res.status in {Rejected, Forbidden}
    ensures TurnedAway(results[res.id := res])
  {
  }

  lemma ForbiddenExplained(ev: Event, now: int, p: Pending, studyable: set<Id>, log: seq<LogRow>, strict: bool)
    requires AcceptedAs(ev, now, p) && p.card !in studyable
    ensures Explains(ev, Res(p.review.id, p.card, Forbidden, None), now, studyable, log, strict)
  {
    hide Logged;
  }

  lemma ForbiddenSettled(results: map<Id, Res>, evs: seq<Event>, now: int, studyable: set<Id>, log: seq<LogRow>)
    requires Settled(results, evs, now, studyable, log, {Rejected})
    requires forall p :: p in Live(evs, now) && p.card !in studyable ==> p.review.id in results
    ensures Settled(results, evs, now, studyable, log, {Rejected, Forbidden})
  {
    hide Logged, Live;
    forall ev | ev in evs && StatusOf(ev, now, studyable, log) in {Rejected, Forbidden}
      ensures ev.id in results
    {
      if ClampOrReject(ev.reviewedAt, now).Some? { StatusPlaces(evs, now, studyable, log, ev); }
    }
  }

  lemma {:induction false} SameFilter<T>(s: seq<T>, p: T -> bool, q: T -> bool)
    requires forall x :: p(x) == q(x)
    ensures Filter(s, p) == Filter(s, q)
  {
    if s != [] { SameFilter(s[..|s| - 1], p, q); }
  }

  lemma {:induction false} FilterDistinct<T>(s: seq<T>, p: T -> bool)
    requires Distinct(s)
    ensures Distinct(Filter(s, p))
  {
    if s != [] {
      var init := s[..|s| - 1];
      FilterDistinct(init, p);
      FilterElements(init, p);
      assert s[|s| - 1] !in init;
    }
  }

  lemma {:induction false} LiveDistinct(evs: seq<Event>, now: int)
    requires UniqueEvents(evs)
    ensures Distinct(Live(evs, now))
  {
    if evs != [] {
      var init, ev := evs[..|evs| - 1], evs[|evs| - 1];
      LiveDistinct(init, now);
      LiveElements(init, now);
      forall e | e in init ensures e.id != ev.id {
        var k :| 0 <= k < |init| && init[k] == e;
        assert evs[k].id != evs[|evs| - 1].id;
      }
      forall p | p in Live(init, now) ensures p.review.id != ev.id {
        var e :| e in init && AcceptedAs(e, now, p);
      }
    }
  }

  ghost predicate DistinctIds(ps: seq<Pending>) {
    forall i, j :: 0 <= i < j < |ps| ==> ps[i].review.id != ps[j].review.id
  }

  // A request that does not reuse ids grades no id twice.
  lemma FreshIdsDistinct(evs: seq<Event>, now: int, studyable: set<Id>, log: seq<LogRow>,
                         ps: seq<Pending>)
    requires UniqueEvents(evs)
    requires multiset(ps) == multiset(FreshOf(evs, now, studyable, log))
    ensures DistinctIds(ps)
  {
    var live, toGrade, unlogged := Live(evs, now), ToGrade(evs, now, studyable),
                                FreshOf(evs, now, studyable, log);
    LiveDistinct(evs, now);
    FilterDistinct(live, (p: Pending) => p.card in studyable);
    FilterDistinct(toGrade, (p: Pending) => !Logged(log, p.review.id));
    PermutationElements(ps, unlogged);
    FreshAccepted(evs, now, studyable, log);
    forall i, j | 0 <= i < j < |ps| ensures ps[i].review.id != ps[j].review.id {
      assert ps[i] in unlogged && ps[j] in unlogged;
      var a :| a in evs && AcceptedAs(a, now, ps[i]);
      var b :| b in evs && AcceptedAs(b, now, ps[j]);
      assert a.id == b.id ==> a == b;
    }
  }

  lemma FreshAccepted(evs: seq<Event>, now: int, studyable: set<Id>, log: seq<LogRow>)
    ensures forall p :: p in ToGrade(evs, now, studyable) ==>
              p.card in studyable && exists ev :: ev in evs && AcceptedAs(ev, now, p)
    ensures forall p :: p in FreshOf(evs, now, studyable, log) ==>
              p in ToGrade(evs, now, studyable) && !Logged(log, p.review.id)
  {
    LiveElements(evs, now);
    FilterElements(Live(evs, now), (p: Pending) => p.card in studyable);
    FilterElements(ToGrade(evs, now, studyable), (p: Pending) => !Logged(log, p.review.id));
  }

  // Where an event of each status survives to.
  lemma StatusPlaces(evs: seq<Event>, now: int, studyable: set<Id>, log: seq<LogRow>, ev: Event)
    requires ev in evs && ClampOrReject(ev.reviewedAt, now).Some?
    ensures var p := Accept(ev, ClampOrReject(ev.reviewedAt, now).value);
            var status := StatusOf(ev, now, studyable, log);
            && p in Live(evs, now)
            && (status in {Duplicate, Applied} ==> p in ToGrade(evs, now, studyable))
            && (status == Applied ==> p in FreshOf(evs, now, studyable, log))
  {
    assert AcceptedAs(ev, now, Accept(ev, ClampOrReject(ev.reviewedAt, now).value));
    LiveElements(evs, now);
    FilterElements(Live(evs, now), (p: Pending) => p.card in studyable);
    FilterElements(ToGrade(evs, now, studyable), (p: Pending) => !Logged(log, p.review.id));
  }

  // Once nothing is left to do, every event has been answered.
  lemma AllSettled(results: map<Id, Res>, evs: seq<Event>, now: int, studyable: set<Id>, log: seq<LogRow>)
    requires
      || (Live(evs, now) == [] && Settled(results, evs, now, studyable, log, {Rejected}))
      || (ToGrade(evs, now, studyable) == [] && Settled(results, evs, now, studyable, log, {Rejected, Forbidden}))
      || (FreshOf(evs, now, studyable, log) == []
          && Settled(results, evs, now, studyable, log, {Rejected, Forbidden, Duplicate}))
    ensures forall ev :: ev in evs ==> ev.id in results
  {
    forall ev | ev in evs ensures ev.id in results {
      if ClampOrReject(ev.reviewedAt, now).Some? { StatusPlaces(evs, now, studyable, log, ev); }
      assert StatusOf(ev, now, studyable, log) in {Rejected, Forbidden, Duplicate, Applied};
    }
  }

  lemma DuplicateExplained(ev: Event, now: int, p: Pending, studyable: set<Id>, log: seq<LogRow>, res: Res, strict: bool)
    requires AcceptedAs(ev, now, p) && p.card in studyable && Logged(log, p.review.id)
    requires res.id == p.review.id && res.card == p.card && res.status == Duplicate
    ensures Explains(ev, res, now, studyable, log, strict)
  {
    hide Logged;
  }

  // Once every logged event to grade is answered, so is every event of those three statuses.
  lemma DuplicatesSettled(results: map<Id, Res>, evs: seq<Event>, now: int, studyable: set<Id>, log: seq<LogRow>)
    requires Settled(results, evs, now, studyable, log, {Rejected, Forbidden})
    requires forall p :: p in ToGrade(evs, now, studyable) && Logged(log, p.review.id) ==> p.review.id in results
    ensures Settled(results, evs, now, studyable, log, {Rejected, Forbidden, Duplicate})
  {
    hide Logged, ToGrade;
    forall ev | ev in evs && StatusOf(ev, now, studyable, log) in {Rejected, Forbidden, Duplicate}
      ensures ev.id in results
    {
      if StatusOf(ev, now, studyable, log) == Duplicate {
        StatusPlaces(evs, now, studyable, log, ev);
      }
    }
  }

  lemma LoggedAfter(before: seq<LogRow>, after: seq<LogRow>, id: Id)
    requires before == after ||
             (|after| == |before| + 1 && after[..|before|] == before && after[|before|].review.id == id)
    ensures forall x :: Logged(after, x) ==> Logged(before, x) || x == id
  {
    forall x | Logged(after, x) ensures Logged(before, x) || x == id {
      var i :| 0 <= i < |after| && after[i].review.id == x;
      assert i < |before| ==> before[i] == after[i];
    }
  }

  // The response in request order.
  method OrderedResults(evs: seq<Event>, results: map<Id, Res>) returns (r: seq<Res>)
    requires forall ev :: ev in evs ==> ev.id in results
    ensures |r| == |evs| && forall i :: 0 <= i < |evs| ==> r[i] == results[evs[i].id]
  {
    r := [];
    for i := 0 to |evs|
      invariant |r| == i && forall j :: 0 <= j < i ==> r[j] == results[evs[j].id]
    {
      r := r + [results[evs[i].id]];
    }
  }

  // What was settled before and what was graded cover the request.
  lemma GradedIsSettled(evs: seq<Event>, now: int, studyable: set<Id>, log: seq<LogRow>, unlogged: seq<Pending>,
                        settled: map<Id, Res>, results: map<Id, Res>)
    requires forall p :: p in unlogged <==> p in FreshOf(evs, now, studyable, log)
    requires Settled(settled, evs, now, studyable, log, {Rejected, Forbidden, Duplicate})
    requires settled.Keys + (set i | 0 <= i < |unlogged| :: unlogged[i].review.id) <= results.Keys
    ensures forall ev :: ev in evs ==> ev.id in results
  {
    forall ev | ev in evs ensures ev.id in results {
      if StatusOf(ev, now, studyable, log) == Applied {
        StatusPlaces(evs, now, studyable, log, ev);
        var p := Accept(ev, ClampOrReject(ev.reviewedAt, now).value);
        var i :| 0 <= i < |unlogged| && unlogged[i] == p;
        assert unlogged[i].review.id == ev.id;
      }
    }
  }

  /** The response: one entry per request event, in request order, each saying what became of an
      event with its id. */
  ghost predicate Answered(out: seq<Res>, evs: seq<Event>, now: int, studyable: set<Id>, log: seq<LogRow>) {
    |out| == |evs|
    && forall i :: 0 <= i < |evs| ==> out[i].id == evs[i].id && exists ev ::
         ev in evs && Explains(ev, out[i], now, studyable, log, UniqueEvents(evs))
  }

  method Respond(evs: seq<Event>, now: int, ghost studyable: set<Id>, ghost log: seq<LogRow>, results: map<Id, Res>)
    returns (out: seq<Res>)
    requires Faithful(results, evs, now, studyable, log) && forall ev :: ev in evs ==> ev.id in results
    ensures Answered(out, evs, now, studyable, log)
    ensures |out| == |evs| && forall i :: 0 <= i < |out| ==> out[i] == results[evs[i].id]
  {
    out := OrderedResults(evs, results);
    forall i | 0 <= i < |evs|
      ensures out[i].id == evs[i].id && exists ev :: ev in evs && Explains(ev, out[i], now, studyable, log, UniqueEvents(evs))
    {
      assert evs[i].id in results;
    }
  }

  ghost predicate Reported(out: seq<Res>, sched: Scheduler, db: Db, user: Id, ps: seq<Pending>) {
    forall i :: 0 <= i < |out| ==> ReportsOne(out[i], sched, db, user, ps)
  }

  lemma ReportedBy(results: map<Id, Res>, evs: seq<Event>, out: seq<Res>, sched: Scheduler, db: Db, user: Id, ps: seq<Pending>)
    requires Reports(results, sched, db, user, ps) && |out| == |evs|
    requires forall i :: 0 <= i < |evs| ==> evs[i].id in results && out[i] == results[evs[i].id]
    ensures Reported(out, sched, db, user, ps)
  {
    hide ReportsOne;
  }

  /** The states of the response: behind an applied review its card's row as that review's turn left it,
      behind a duplicate the row from before the batch, otherwise none. */
  ghost predicate StatesTrue(out: seq<Res>, sched: Scheduler, db: Db, user: Id, ps: seq<Pending>) {
    forall i :: 0 <= i < |out| ==> StateTrue(out[i], sched, db, user, ps)
  }

  ghost predicate StateTrue(res: Res, sched: Scheduler, db: Db, user: Id, ps: seq<Pending>) {
    match res.status
    case Applied => exists k :: RowBehind(res, sched, db, user, ps, k)
    case Duplicate =>
      var key := Key(user, res.card);
      res.after == if key in db.states then Some(CardState(db.states[key].sched, db.states[key].lastReview)) else None
    case _ => res.after.None?
  }

  predicate RowBehind(res: Res, sched: Scheduler, db: Db, user: Id, ps: seq<Pending>, k: int) {
    && 0 <= k < |ps| && ps[k].review.id == res.id && ps[k].card == res.card
    && RunGrades(sched, db, user, ps[..k + 1]).Some?
    && var states := RunGrades(sched, db, user, ps[..k + 1]).value.states;
       Key(user, res.card) in states
       && res.after == Some(CardState(states[Key(user, res.card)].sched, states[Key(user, res.card)].lastReview))
  }

  lemma ReportedApplied(res: Res, sched: Scheduler, db: Db, user: Id, ps: seq<Pending>)
    requires ReportsOne(res, sched, db, user, ps) && res.status == Applied
    ensures RowBehind(res, sched, db, user, ps, LastUse(ps, res.id))
  {
    var k := LastUse(ps, res.id);
    assert ps[..k + 1][..k] == ps[..k];
    GradedRow(sched, RunGrades(sched, db, user, ps[..k]).value, Key(user, res.card), ps[k].review);
    hide Graded, LastUse;
  }

  lemma GradedRow(sched: Scheduler, db: Db, key: Key, ev: Review)
    requires Graded(sched, db, key, ev).Some?
    ensures var (db', status) := Graded(sched, db, key, ev).value;
            status in {Applied, Duplicate} && (status == Applied ==> key in db'.states)
  {
  }

  /** In a request that does not reuse ids, a graded id was not logged before, so the answers' states are
      true of their statuses. */
  lemma ReportedStates(out: seq<Res>, evs: seq<Event>, now: int, studyable: set<Id>, sched: Scheduler, db: Db, user: Id, ps: seq<Pending>)
    requires UniqueEvents(evs) && Answered(out, evs, now, studyable, db.log) && Reported(out, sched, db, user, ps)
    requires multiset(ps) == multiset(FreshOf(evs, now, studyable, db.log))
    ensures StatesTrue(out, sched, db, user, ps)
  {
    hide FreshOf, StateTrue, ReportsOne, Explains, Logged;
    NoneLogged(evs, now, studyable, db.log, ps);
    forall i | 0 <= i < |out| ensures StateTrue(out[i], sched, db, user, ps) {
      OneStateTrue(out[i], evs, now, studyable, sched, db, user, ps);
    }
  }

  // A graded event is a request event as submitted, at its believable instant.
  predicate ComesFrom(p: Pending, ev: Event, now: int) {
    && p.card == ev.card && p.review.id == ev.id && p.review.rating == ev.rating
    && ClampOrReject(ev.reviewedAt, now) == Some(p.review.at)
  }

  /** What is applied is the request: exactly the believable events of studyable cards that were not
      logged, none twice unless the request reuses its id. */
  ghost predicate AppliesRequest(ps: seq<Pending>, evs: seq<Event>, now: int, studyable: set<Id>, log: seq<LogRow>) {
    && (forall p :: p in ps ==> p.card in studyable && !Logged(log, p.review.id) && exists ev :: ev in evs && ComesFrom(p, ev, now))
    && (forall ev :: ev in evs && ClampOrReject(ev.reviewedAt, now).Some? && ev.card in studyable && !Logged(log, ev.id) ==>
          exists p :: p in ps && ComesFrom(p, ev, now))
    && (UniqueEvents(evs) ==> DistinctIds(ps))
  }

  lemma FreshIsRequest(evs: seq<Event>, now: int, studyable: set<Id>, log: seq<LogRow>, ps: seq<Pending>)
    requires multiset(ps) == multiset(FreshOf(evs, now, studyable, log))
    ensures AppliesRequest(ps, evs, now, studyable, log)
  {
    if UniqueEvents(evs) { FreshIdsDistinct(evs, now, studyable, log, ps); }
    PermutationElements(ps, FreshOf(evs, now, studyable, log));
    FreshAccepted(evs, now, studyable, log);
    hide FreshOf, ToGrade, UniqueEvents, DistinctIds, Logged;
    forall p | p in ps ensures exists ev :: ev in evs && ComesFrom(p, ev, now) {
      var ev :| ev in evs && AcceptedAs(ev, now, p);
      assert ComesFrom(p, ev, now);
    }
    forall ev | ev in evs && ClampOrReject(ev.reviewedAt, now).Some? && ev.card in studyable && !Logged(log, ev.id)
      ensures exists p :: p in ps && ComesFrom(p, ev, now)
    {
      var p := Accept(ev, ClampOrReject(ev.reviewedAt, now).value);
      StatusPlaces(evs, now, studyable, log, ev);
      assert p in ps && ComesFrom(p, ev, now);
    }
  }

  lemma NoneLogged(evs: seq<Event>, now: int, studyable: set<Id>, log: seq<LogRow>, ps: seq<Pending>)
    requires multiset(ps) == multiset(FreshOf(evs, now, studyable, log))
    ensures forall p :: p in ps ==> !Logged(log, p.review.id)
  {
    PermutationElements(ps, FreshOf(evs, now, studyable, log));
    FreshAccepted(evs, now, studyable, log);
  }

  lemma OneStateTrue(res: Res, evs: seq<Event>, now: int, studyable: set<Id>, sched: Scheduler, db: Db, user: Id, ps: seq<Pending>)
    requires ReportsOne(res, sched, db, user, ps) && forall p :: p in ps ==> !Logged(db.log, p.review.id)
    requires exists ev :: ev in evs && Explains(ev, res, now, studyable, db.log, true)
    ensures StateTrue(res, sched, db, user, ps)
  {
    if LastUse(ps, res.id) >= 0 { NotAnswered(res, evs, now, studyable, sched, db, user, ps); }
    if res.status == Applied { ReportedApplied(res, sched, db, user, ps); }
    hide Explains, RowBehind, Graded, RunGrades;
  }

  // What was graded is answered as applied.
  lemma NotAnswered(res: Res, evs: seq<Event>, now: int, studyable: set<Id>, sched: Scheduler, db: Db, user: Id, ps: seq<Pending>)
    requires ReportsOne(res, sched, db, user, ps) && LastUse(ps, res.id) >= 0
    requires exists ev :: ev in evs && Explains(ev, res, now, studyable, db.log, true)
    requires forall p :: p in ps ==> !Logged(db.log, p.review.id)
    ensures res.status == Applied
  {
    var k := LastUse(ps, res.id);
    var ev :| ev in evs && Explains(ev, res, now, studyable, db.log, true);
    GradedRow(sched, RunGrades(sched, db, user, ps[..k]).value, Key(user, res.card), ps[k].review);
    assert ps[k] in ps;
    hide Graded, LastUse, RunGrades, Logged;
  }

  // Without events left to grade there is nothing to lock and nothing to apply.
  lemma NothingFresh(evs: seq<Event>, now: int, studyable: set<Id>, log: seq<LogRow>)
    ensures Live(evs, now) == [] ==> ToGrade(evs, now, studyable) == []
    ensures ToGrade(evs, now, studyable) == [] ==> FreshOf(evs, now, studyable, log) == []
  {
  }

  lemma NoKeys(lockKey: Key -> int, user: Id)
    ensures Ascending([]) && KeysOf([], lockKey, user, CardsOf([])) && InLogOrder([])
  {
  }

  lemma NothingRun(sched: Scheduler, db: Db, user: Id)
    ensures RunGrades(sched, db, user, []) == Some(db)
  {
  }

  /** One transaction's view of the tables, and the advisory locks it holds in the order it took
      them. */
  class GradeTx {
    var log: seq<LogRow>
    var states: map<Key, StateRow>
    var held: seq<int>

    function Tables(): Db reads this { Db(log, states) }

    constructor (db: Db)
      ensures Tables() == db && held == []
    {
      log, states, held := db.log, db.states, [];
    }

    method LockCardForGrade(k: int)
      modifies this`held
      ensures held == old(held) + [k]
    {
      held := held + [k];
    }

    method AcquireLocks(keys: seq<int>)
      modifies this`held
      ensures held == old(held) + keys
    {
      for i := 0 to |keys|
        invariant held == old(held) + keys[..i]
      {
        LockCardForGrade(keys[i]);
        assert keys[..i + 1] == keys[..i] + [keys[i]];
      }
      assert keys[..|keys|] == keys;
    }

    // INSERT ... ON CONFLICT (id) DO NOTHING: the number of rows written.
    method InsertReviewLog(row: LogRow) returns (n: nat)
      modifies this`log
      ensures n == 1 <==> !Logged(old(log), row.review.id)
      ensures n <= 1 && log == if n == 1 then old(log) + [row] else old(log)
    {
      if Logged(log, row.review.id) {
        n := 0;
      } else {
        log := log + [row];
        n := 1;
      }
    }

    method UpsertUserCardStateOnReview(key: Key, o: Outcome, elapsed: nat, at: Instant)
      modifies this`states
      ensures states == UpsertOnReview(old(states), key, o, elapsed, at)
    {
      if key in states {
        var row := states[key];
        if row.lastReview.None? || row.lastReview.value < at {
          states := states[key := StateRow(o, elapsed, Some(at), row.settings)];
        }
      } else {
        states := states[key := StateRow(o, elapsed, Some(at), DEFAULT_SETTINGS)];
      }
    }

    method UpsertUserCardStateFromReplay(key: Key, o: Outcome, elapsed: nat, at: Instant)
      modifies this`states
      ensures states == old(states)[key := StateRow(o, elapsed, Some(at), SettingsOf(old(states), key))]
    {
      var settings := if key in states then states[key].settings else DEFAULT_SETTINGS;
      states := states[key := StateRow(o, elapsed, Some(at), settings)];
    }

    function CurrentState(key: Key): Option<CardState>
      reads this
    {
      if key in states then Some(StateOf(states[key])) else None
    }

    method GradeInOrder(sched: Scheduler, key: Key, ev: Review, before: CardState)
      returns (r: Result<(Option<CardState>, Status), BatchError>)
      requires before == Prior(states, key)
      requires before.lastReview.None? || ev.at >= before.lastReview.value
      modifies this`log, this`states
      ensures r.Ok? <==> Graded(sched, old(Tables()), key, ev).Some?
      ensures r.Ok? ==> Graded(sched, old(Tables()), key, ev) == Some((Tables(), r.value.1))
      ensures r.Ok? ==> r.value.0 == CurrentState(key)
      ensures r.Err? ==> Tables() == old(Tables())
    {
      var elapsed := ElapsedDays(before, ev.at);
      match sched(key, before, ev.rating, ev.at) {
        case None => return Err(ScheduleFailed);
        case Some(o) =>
          var n := InsertReviewLog(LogRow(key, ev, MemoryOf(before), elapsed, o.scheduledDays));
          if n == 0 {
            return Ok((CurrentState(key), Duplicate));
          }
          UpsertUserCardStateOnReview(key, o, elapsed, ev.at);
          r := Ok((CurrentState(key), Applied));
      }
    }

    method GradeOutOfOrder(sched: Scheduler, key: Key, ev: Review)
      returns (r: Result<(Option<CardState>, Status), BatchError>)
      requires UniqueIds(log)
      requires Prior(states, key).lastReview.Some? && ev.at < Prior(states, key).lastReview.value
      modifies this`log, this`states
      ensures r.Ok? <==> Graded(sched, old(Tables()), key, ev).Some?
      ensures r.Ok? ==> Graded(sched, old(Tables()), key, ev) == Some((Tables(), r.value.1))
      ensures r.Ok? ==> r.value.0 == CurrentState(key)
      ensures r.Err? ==> Tables() == old(Tables())
    {
      hide Fold, Insert, InsertPos, Listing, Sorted, Logged, UniqueIds, MemoryOf, ElapsedDays;
      var existing := Listing(log, key);
      ListingSorted(log, key);
      var merged, idx := InsertSorted(existing, ev);
      assert merged[..idx] == existing[..idx];
      var replay := ReplayStates(sched, key, merged);
      if replay.None? { return Err(ScheduleFailed); }
      var (priors, final) := replay.value;
      var prior := priors[idx];
      FoldPrefix(sched, key, merged, idx + 1);
      assert merged[..idx + 1][..idx] == merged[..idx];
      var elapsed := ElapsedDays(prior, ev.at);
      match sched(key, prior, ev.rating, ev.at) {
        case None => return Err(ScheduleFailed);
        case Some(o) =>
          var n := InsertReviewLog(LogRow(key, ev, MemoryOf(prior), elapsed, o.scheduledDays));
          if n == 0 {
            return Ok((CurrentState(key), Duplicate));
          }
          var lastAt := merged[|merged| - 1].at;
          LastAtIsFolded(sched, key, merged);
          UpsertUserCardStateFromReplay(key, final.sched, ElapsedDays(priors[|priors| - 1], lastAt), lastAt);
          r := Ok((Some(final), Applied));
      }
    }

    /** Grades one event: the in-place writes are exactly the transition Graded, and the reported
        state is the stored one. */
    method GradeEvent(sched: Scheduler, key: Key, ev: Review)
      returns (r: Result<(Option<CardState>, Status), BatchError>)
      requires UniqueIds(log)
      modifies this`log, this`states
      ensures r.Ok? <==> Graded(sched, old(Tables()), key, ev).Some?
      ensures r.Ok? ==> Graded(sched, old(Tables()), key, ev) == Some((Tables(), r.value.1))
      ensures r.Ok? ==> r.value.0 == CurrentState(key)
      ensures r.Err? ==> Tables() == old(Tables())
    {
      var before := if key in states then StateOf(states[key]) else NEVER_SEEN;
      if before.lastReview.None? || ev.at >= before.lastReview.value {
        r := GradeInOrder(sched, key, ev, before);
      } else {
        r := GradeOutOfOrder(sched, key, ev);
      }
    }

    // The idempotency check: events already in the log are answered with the stored state.
    method SkipLogged(ghost sched: Scheduler, evs: seq<Event>, now: int, studyable: set<Id>, user: Id, toGrade: seq<Pending>,
                      settled: map<Id, Res>)
      returns (unlogged: seq<Pending>, results: map<Id, Res>)
      requires toGrade == ToGrade(evs, now, studyable)
      requires Faithful(settled, evs, now, studyable, log)
      requires Settled(settled, evs, now, studyable, log, {Rejected, Forbidden}) && TurnedAway(settled)
      ensures Reports(results, sched, Tables(), user, [])
      ensures unlogged == FreshOf(evs, now, studyable, log)
      ensures Faithful(results, evs, now, studyable, log)
      ensures Settled(results, evs, now, studyable, log, {Rejected, Forbidden, Duplicate})
    {
      hide Faithful, Settled, UniqueEvents, Explains, AcceptedAs, ToGrade, Logged, Reports, TurnedAway;
      unlogged, results := [], settled;
      AwayReports(settled, sched, Tables(), user);
      FreshAccepted(evs, now, studyable, log);
      ghost var log0 := log;
      ghost var isNew := (p: Pending) => !Logged(log0, p.review.id);
      for i := 0 to |toGrade|
        invariant unlogged == Filter(toGrade[..i], isNew)
        invariant Faithful(results, evs, now, studyable, log)
        invariant Settled(results, evs, now, studyable, log, {Rejected, Forbidden})
        invariant Reports(results, sched, Tables(), user, [])
        invariant forall p :: p in toGrade[..i] && Logged(log, p.review.id) ==> p.review.id in results
      {
        var p := toGrade[i];
        assert toGrade[..i + 1] == toGrade[..i] + [p] && p in toGrade;
        assert toGrade[..i + 1][..i] == toGrade[..i];
        if !Logged(log, p.review.id) {
          unlogged := unlogged + [p];
        } else {
          ghost var ev :| ev in evs && AcceptedAs(ev, now, p);
          var res := Res(p.review.id, p.card, Duplicate, CurrentState(Key(user, p.card)));
          DuplicateExplained(ev, now, p, studyable, log, res, UniqueEvents(evs));
          FaithfulAdd(results, evs, now, studyable, log, ev, res);
          SettledMore(results, results[p.review.id := res], evs, now, studyable, log, {Rejected, Forbidden});
          ReportDuplicate(results, sched, Tables(), user, res);
          results := results[p.review.id := res];
        }
      }
      assert toGrade[..|toGrade|] == toGrade;
      SameFilter(toGrade, isNew, (p: Pending) => !Logged(log0, p.review.id));
      DuplicatesSettled(results, evs, now, studyable, log);
    }

    // The ids logged so far are those of the old log and of the batch's earlier events.
    ghost predicate LoggedWithin(log0: seq<LogRow>, used: set<Id>)
      reads this
    {
      forall id :: Logged(log, id) ==> Logged(log0, id) || id in used
    }

    // One turn of the grading loop: grade the event and record its answer.
    method GradeOne(sched: Scheduler, evs: seq<Event>, now: int, studyable: set<Id>, user: Id, p: Pending,
                    results: map<Id, Res>, ghost log0: seq<LogRow>, ghost used: set<Id>)
      returns (r: Result<map<Id, Res>, BatchError>)
      requires UniqueIds(log) && LoggedWithin(log0, used)
      requires p in FreshOf(evs, now, studyable, log0)
      requires UniqueEvents(evs) ==> p.review.id !in used
      requires Faithful(results, evs, now, studyable, log0)
      modifies this`log, this`states
      ensures UniqueIds(log)
      ensures var g := Graded(sched, old(Tables()), Key(user, p.card), p.review);
              (r.Ok? <==> g.Some?) && (r.Ok? ==> g.value.0 == Tables())
      ensures r.Ok? ==> LoggedWithin(log0, used + {p.review.id})
      ensures r.Ok? ==> Faithful(r.value, evs, now, studyable, log0)
      ensures r.Ok? ==> var g := Graded(sched, old(Tables()), Key(user, p.card), p.review).value;
                        r.value == results[p.review.id := Res(p.review.id, p.card, g.1, RowOf(g.0, Key(user, p.card)))]
    {
      FreshAccepted(evs, now, studyable, log0);
      ghost var ev :| ev in evs && AcceptedAs(ev, now, p);
      ghost var before := log;
      var g := GradeEvent(sched, Key(user, p.card), p.review);
      if g.Err? { return Err(ScheduleFailed); }
      LoggedAfter(before, log, p.review.id);
      var res := Res(p.review.id, p.card, g.value.1, g.value.0);
      assert Explains(ev, res, now, studyable, log0, UniqueEvents(evs));
      r := Ok(results[p.review.id := res]);
    }

    // Applies the sorted unlogged events one by one.
    method GradeAll(sched: Scheduler, evs: seq<Event>, now: int, studyable: set<Id>, user: Id,
                    unlogged: seq<Pending>, settled: map<Id, Res>)
      returns (r: Result<map<Id, Res>, BatchError>)
      requires UniqueIds(log)
      requires forall p :: p in unlogged <==> p in FreshOf(evs, now, studyable, log)
      requires UniqueEvents(evs) ==> DistinctIds(unlogged)
      requires Faithful(settled, evs, now, studyable, log)
      requires Settled(settled, evs, now, studyable, log, {Rejected, Forbidden, Duplicate})
      requires Reports(settled, sched, Tables(), user, [])
      modifies this`log, this`states
      ensures UniqueIds(log)
      ensures r.Ok? ==> Reports(r.value, sched, old(Tables()), user, unlogged)
      ensures r.Ok? <==> RunGrades(sched, old(Tables()), user, unlogged).Some?
      ensures r.Ok? ==> RunGrades(sched, old(Tables()), user, unlogged) == Some(Tables())
      ensures r.Ok? ==> Faithful(r.value, evs, now, studyable, old(log))
      ensures r.Ok? ==> forall ev :: ev in evs ==> ev.id in r.value
    {
      hide Graded, Faithful, Settled, FreshOf, Explains, Reports, RowOf;
      ghost var log0, db0 := log, Tables();
      ghost var used: set<Id> := {};
      var results := settled;
      FreshAccepted(evs, now, studyable, log);
      for k := 0 to |unlogged|
        invariant UniqueIds(log)
        invariant RunGrades(sched, db0, user, unlogged[..k]) == Some(Tables())
        invariant used == set i | 0 <= i < k :: unlogged[i].review.id
        invariant LoggedWithin(log0, used)
        invariant Faithful(results, evs, now, studyable, log0)
        invariant settled.Keys + used <= results.Keys
        invariant Reports(results, sched, db0, user, unlogged[..k])
      {
        var p := unlogged[k];
        assert unlogged[..k + 1][..k] == unlogged[..k];
        assert p in unlogged;
        ghost var before := Tables();
        var g := GradeOne(sched, evs, now, studyable, user, p, results, log0, used);
        if g.Err? {
          if RunGrades(sched, db0, user, unlogged).Some? { RunPrefix(sched, db0, user, unlogged, k + 1); }
          return Err(ScheduleFailed);
        }
        ReportGrade(results, sched, db0, user, unlogged, k, before, g.value[p.review.id]);
        results := g.value;
        used := used + {p.review.id};
      }
      assert unlogged[..|unlogged|] == unlogged;
      GradedIsSettled(evs, now, studyable, log0, unlogged, settled, results);
      r := Ok(results);
    }

    method LogOrder(ps: seq<Pending>) returns (sorted: seq<Pending>)
      ensures multiset(sorted) == multiset(ps) && InLogOrder(sorted) && forall p :: p in sorted <==> p in ps
    {
      sorted := Sort(ps, (a: Pending, b: Pending) => Before(a.review, b.review));
      PermutationElements(sorted, ps);
    }

    /** Grades the unlogged events in log order and answers the request. */
    method GradeSorted(sched: Scheduler, evs: seq<Event>, now: int, studyable: set<Id>, user: Id,
                       unlogged: seq<Pending>, results: map<Id, Res>)
      returns (r: Result<seq<Res>, BatchError>, ghost applied: seq<Pending>)
      requires UniqueIds(log) && unlogged == FreshOf(evs, now, studyable, log)
      requires Faithful(results, evs, now, studyable, log)
      requires Settled(results, evs, now, studyable, log, {Rejected, Forbidden, Duplicate})
      requires Reports(results, sched, Tables(), user, [])
      modifies this`log, this`states
      ensures UniqueIds(log)
      ensures r.Ok? ==> Reported(r.value, sched, old(Tables()), user, applied)
      ensures multiset(applied) == multiset(unlogged) && InLogOrder(applied)
      ensures r.Ok? <==> RunGrades(sched, old(Tables()), user, applied).Some?
      ensures r.Ok? ==> RunGrades(sched, old(Tables()), user, applied) == Some(Tables())
      ensures r.Ok? ==> Answered(r.value, evs, now, studyable, old(log))
    {
      var sorted := LogOrder(unlogged);
      applied := sorted;
      hide Graded, Faithful, Settled, FreshOf, Explains, Answered, UniqueEvents, Reports, Reported, DistinctIds, InLogOrder, RunGrades;
      if UniqueEvents(evs) { FreshIdsDistinct(evs, now, studyable, log, sorted); }
      ghost var log0, db0 := log, Tables();
      var g := GradeAll(sched, evs, now, studyable, user, sorted, results);
      if g.Err? { return Err(ScheduleFailed), applied; }
      var out := Respond(evs, now, studyable, log0, g.value);
      ReportedBy(g.value, evs, out, sched, db0, user, sorted);
      r := Ok(out);
    }

    // An exit with nothing to grade.
    method RespondEarly(ghost sched: Scheduler, ghost user: Id, now: int, ghost studyable: set<Id>, evs: seq<Event>, results: map<Id, Res>)
      returns (r: Result<seq<Res>, BatchError>)
      requires Faithful(results, evs, now, studyable, log) && Reports(results, sched, Tables(), user, [])
      requires FreshOf(evs, now, studyable, log) == [] && forall ev :: ev in evs ==> ev.id in results
      ensures r.Ok? && Answered(r.value, evs, now, studyable, log) && Reported(r.value, sched, Tables(), user, [])
      ensures UniqueEvents(evs) ==> StatesTrue(r.value, sched, Tables(), user, [])
    {
      hide Faithful, Answered, Reports, Reported, StatesTrue, FreshOf, UniqueEvents;
      var out := Respond(evs, now, studyable, log, results);
      ReportedBy(results, evs, out, sched, Tables(), user, []);
      if UniqueEvents(evs) { ReportedStates(out, evs, now, studyable, sched, Tables(), user, []); }
      r := Ok(out);
    }

    /** The whole batch. On success the tables are the run of the unlogged events in log order, the
        locks were taken in ascending key order before any write, and the response has one entry
        per request event, in request order; on failure the caller rolls back. */
    method GradeBatch(sched: Scheduler, lockKey: Key -> int, user: Id, now: int, studyable: set<Id>,
                      evs: seq<Event>)
      returns (r: Result<seq<Res>, BatchError>, ghost applied: seq<Pending>)
      requires UniqueIds(log) && held == []
      modifies this
      ensures UniqueIds(log)
      ensures multiset(applied) == multiset(FreshOf(evs, now, studyable, old(log))) && InLogOrder(applied)
      ensures r.Ok? <==> RunGrades(sched, old(Tables()), user, applied).Some?
      ensures r.Ok? ==> RunGrades(sched, old(Tables()), user, applied) == Some(Tables())
      ensures Ascending(held)
      ensures KeysOf(held, lockKey, user, CardsOf(ToGrade(evs, now, studyable)))
      ensures AppliesRequest(applied, evs, now, studyable, old(log))
      ensures r.Ok? ==> Answered(r.value, evs, now, studyable, old(log))
      ensures r.Ok? ==> Reported(r.value, sched, old(Tables()), user, applied)
      ensures r.Ok? && UniqueEvents(evs) ==> StatesTrue(r.value, sched, old(Tables()), user, applied)
    {
      hide Reports, Reported, TurnedAway, StatesTrue, AppliesRequest;
      hide Graded, Faithful, Settled, FreshOf, ToGrade, Live, Explains, Answered, UniqueEvents, KeysOf, CardsOf, Ascending, InLogOrder, RunGrades;
      ghost var log0 := log;
      var live, results := Screen(evs, now, studyable, log);
      applied := [];
      NothingFresh(evs, now, studyable, log);
      NoKeys(lockKey, user);
      NothingRun(sched, Tables(), user);
      AwayReports(results, sched, Tables(), user);
      if |live| == 0 {
        AllSettled(results, evs, now, studyable, log);
        r := RespondEarly(sched, user, now, studyable, evs, results);
        FreshIsRequest(evs, now, studyable, log0, []);
        return r, [];
      }
      var toGrade;
      toGrade, results := Authorise(evs, now, studyable, log, live, results);
      AwayReports(results, sched, Tables(), user);
      if |toGrade| == 0 {
        AllSettled(results, evs, now, studyable, log);
        r := RespondEarly(sched, user, now, studyable, evs, results);
        FreshIsRequest(evs, now, studyable, log0, []);
        return r, [];
      }
      var keys := SortedKeys(lockKey, user, CardsOf(toGrade));
      AcquireLocks(keys);
      assert held == keys;
      var unlogged;
      unlogged, results := SkipLogged(sched, evs, now, studyable, user, toGrade, results);
      if |unlogged| == 0 {
        AllSettled(results, evs, now, studyable, log);
        r := RespondEarly(sched, user, now, studyable, evs, results);
        FreshIsRequest(evs, now, studyable, log0, []);
        return r, [];
      }
      ghost var db0 := Tables();
      r, applied := GradeSorted(sched, evs, now, studyable, user, unlogged, results);
      FreshIsRequest(evs, now, studyable, log0, applied);
      if r.Ok? && UniqueEvents(evs) {
        ReportedStates(r.value, evs, now, studyable, sched, db0, user, applied);
      }
    }
  }

  lemma {:induction false} RunPrefix(sched: Scheduler, db: Db, user: Id, ps: seq<Pending>, n: nat)
    requires n <= |ps| && RunGrades(sched, db, user, ps).Some?
    ensures RunGrades(sched, db, user, ps[..n]).Some?
  {
    if n < |ps| {
      var init := ps[..|ps| - 1];
      RunPrefix(sched, db, user, init, n);
      assert init[..n] == ps[..n];
    } else {
      assert ps[..n] == ps;
    }
  }
}
