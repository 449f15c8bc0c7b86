/** The daily new-card cap: a rank cutoff over the never-seen cards, recomputed by every fetch from
    how many cards were introduced so far (internal/review/batch.go, internal/db/reviews.sql.go). */
module NewCardCap {
  import opened Wrappers
  import opened Keyset

  // ---- The rank cutoff ----

  // The row an OFFSET n - 1 LIMIT 1 subquery finds, none when there are fewer rows than that.
  function Cutoff(eligible: seq<Row>, n: int): Option<Row> {
    var offset := if n - 1 > 0 then n - 1 else 0;
    if offset < |eligible| then Some(eligible[offset]) else None
  }

  // The WHERE clause: an allowance is left, and the row ranks at or before the cutoff.
  predicate Passes(row: Row, eligible: seq<Row>, n: int) {
    n > 0 && (Cutoff(eligible, n).None? || !Less(Cutoff(eligible, n).value, row))
  }

  /** The cutoff admits exactly the first n eligible rows, however few or many there are. */
  lemma CutoffTakesFirst(eligible: seq<Row>, n: int, k: nat)
    requires Queue(eligible) && k < |eligible|
    ensures Passes(eligible[k], eligible, n) <==> k < n
  {
    if 0 < n <= |eligible| {
      assert Cutoff(eligible, n) == Some(eligible[n - 1]);
      if k < n - 1 { assert Less(eligible[k], eligible[n - 1]); }
      if n - 1 < k { assert Less(eligible[n - 1], eligible[k]); }
    }
  }

  function Admitted(eligible: seq<Row>, rows: seq<Row>, n: int): seq<Row> {
    if rows == [] then []
    else
      var init, last := Admitted(eligible, rows[..|rows| - 1], n), rows[|rows| - 1];
      if Passes(last, eligible, n) then init + [last] else init
  }

  lemma {:induction false} AdmittedIsPrefix(eligible: seq<Row>, n: int, m: nat)
    requires Queue(eligible) && m <= |eligible|
    ensures Admitted(eligible, eligible[..m], n) == eligible[..if m <= n then m else if n > 0 then n else 0]
  {
    if m > 0 {
      AdmittedIsPrefix(eligible, n, m - 1);
      assert eligible[..m][..m - 1] == eligible[..m - 1];
      CutoffTakesFirst(eligible, n, m - 1);
    }
  }

  /** The new-card query: rows within the cutoff, past the cursor, in order, at most one batch. */
  function ListNewCards(unseen: seq<Row>, n: int, cur: Option<Row>, limit: nat): seq<Row> {
    Keyset.Fetch(Admitted(unseen, unseen, n), cur, limit)
  }

  lemma {:induction false} AfterKeepsElements(rows: seq<Row>, cur: Option<Row>, row: Row)
    requires row in After(rows, cur)
    ensures row in rows
  {
    if rows != [] && !(cur.None? || Less(cur.value, rows[0])) {
      AfterKeepsElements(rows[1..], cur, row);
    } else if row != rows[0] {
      AfterKeepsElements(rows[1..], cur, row);
    }
  }

  /** Whatever cursor and page size a fetch uses, it serves only the first n never-seen cards; and
      from the start of the queue, with room for them, it serves all of them. */
  lemma QueryServesFirst(unseen: seq<Row>, n: int, cur: Option<Row>, limit: nat)
    requires Queue(unseen)
    ensures forall row :: row in ListNewCards(unseen, n, cur, limit) ==> row in unseen && Passes(row, unseen, n)
    ensures cur.None? && limit >= |unseen| ==>
              ListNewCards(unseen, n, cur, limit) ==
              unseen[..if n <= 0 then 0 else if n <= |unseen| then n else |unseen|]
  {
    AdmittedIsPrefix(unseen, n, |unseen|);
    assert unseen[..|unseen|] == unseen;
    var admitted := Admitted(unseen, unseen, n);
    forall row | row in ListNewCards(unseen, n, cur, limit) ensures row in unseen && Passes(row, unseen, n) {
      assert row in After(admitted, cur);
      AfterKeepsElements(admitted, cur, row);
      var k :| 0 <= k < |admitted| && admitted[k] == row;
      assert unseen[k] == row;
      CutoffTakesFirst(unseen, n, k);
    }
    if cur.None? && limit >= |unseen| { AfterAll(admitted, cur); }
  }

  // ---- Allowances ----

  datatype Preset = Preset(newPerDay: nat, revPerDay: nat)

  datatype Allowance = Allowance(newRemaining: int, totalRemaining: int, limit: int)

  function Remaining(perDay: int, used: int): int {
    if perDay - used < 0 then 0 else perDay - used
  }

  // What one fetch may serve: the new cards left of the day, none once the shared total is spent.
  function Allow(p: Preset, extraRounds: nat, introduced: nat, reviewed: nat, limit: int): Allowance {
    var newRemaining := Remaining(p.newPerDay + extraRounds * p.newPerDay, introduced);
    var totalRemaining := Remaining(p.revPerDay + extraRounds * p.revPerDay, introduced + reviewed);
    if totalRemaining <= 0 then Allowance(0, totalRemaining, limit)
    else Allowance(newRemaining, totalRemaining, if limit < totalRemaining then limit else totalRemaining)
  }

  predicate Fits(perDay: int, used: int, n: int) { used + n <= perDay }

  // n is what is left of a budget: as much as still fits, and no more.
  ghost predicate IsLeft(n: int, perDay: int, used: int) {
    0 <= n && (n == 0 || Fits(perDay, used, n)) && forall m :: Fits(perDay, used, m) ==> m <= n
  }

  // l is the page: as much of the limit as the total still takes, and no more.
  ghost predicate IsPageSize(l: int, limit: int, perDay: int, used: int) {
    l <= limit && Fits(perDay, used, l) && forall m :: m <= limit && Fits(perDay, used, m) ==> m <= l
  }

  /** The budgets are kept and spent. While the shared total is not used up, new cards are what is left
      of their own budget, the page is what the total still takes of the limit, and the total handed on
      is exactly what is left; once it is, there are no new cards and the page keeps its full size, which
      the uncapped learning cards need. */
  lemma AllowanceWithinBudgets(p: Preset, extraRounds: nat, introduced: nat, reviewed: nat, limit: nat)
    ensures var a := Allow(p, extraRounds, introduced, reviewed, limit);
            var newCap, totalCap := (1 + extraRounds) * p.newPerDay, (1 + extraRounds) * p.revPerDay;
            if introduced + reviewed < totalCap then
              && IsLeft(a.newRemaining, newCap, introduced)
              && introduced + reviewed + a.totalRemaining == totalCap
              && IsPageSize(a.limit, limit, totalCap, introduced + reviewed)
            else a == Allowance(0, 0, limit)
    ensures var a := Allow(p, extraRounds, introduced, reviewed, limit);
            && 0 <= a.newRemaining
            && (a.newRemaining > 0 ==> introduced + a.newRemaining == (1 + extraRounds) * p.newPerDay
                                       && introduced + reviewed + a.limit <= (1 + extraRounds) * p.revPerDay)
  {
    assert (1 + extraRounds) * p.newPerDay == p.newPerDay + extraRounds * p.newPerDay;
    assert (1 + extraRounds) * p.revPerDay == p.revPerDay + extraRounds * p.revPerDay;
  }

  // ---- One study day ----

  // The cards that left the never-seen set, those of them logged as introduced today, the new cards
  // served so far, and how many cards left unlogged (graded outside the day, suspended or buried).
  datatype Day = Day(gone: set<Row>, introduced: set<Row>, served: set<Row>, unlogged: nat)

  const MORNING := Day({}, {}, {}, 0)

  // Fetch: the new cards a page shows. Grade: one review of a card; inDay says its instant lies in
  // the study day and its prior state was New. Settings: suspend or bury.
  datatype Op =
    | Fetch(page: set<Row>, extraRounds: nat, reviewed: nat, limit: nat)
    | Grade(card: Row, inDay: bool)
    | Settings(card: Row)

  // The cards still never seen, in key order.
  function Unseen(queue: seq<Row>, gone: set<Row>): seq<Row> {
    if queue == [] then []
    else
      var init, last := Unseen(queue[..|queue| - 1], gone), queue[|queue| - 1];
      if last in gone then init else init + [last]
  }

  // A page may show any never-seen cards that pass the cutoff at the time of the fetch, as many as it
  // has room for.
  ghost predicate Enabled(op: Op, queue: seq<Row>, p: Preset, d: Day) {
    op.Fetch? ==>
      var a := Allow(p, op.extraRounds, |d.introduced|, op.reviewed, op.limit);
      var unseen := Unseen(queue, d.gone);
      |op.page| <= a.limit && forall row :: row in op.page ==> row in unseen && Passes(row, unseen, a.newRemaining)
  }

  function Step(op: Op, d: Day): Day {
    match op
    case Fetch(page, _, _, _) => d.(served := d.served + page)
    case Grade(card, inDay) =>
      d.(gone := d.gone + {card},
         introduced := if inDay then d.introduced + {card} else d.introduced,
         unlogged := if inDay || card in d.gone then d.unlogged else d.unlogged + 1)
    case Settings(card) =>
      d.(gone := d.gone + {card}, unlogged := if card in d.gone then d.unlogged else d.unlogged + 1)
  }

  function At(ops: seq<Op>, n: nat): Day
    requires n <= |ops|
  {
    if n == 0 then MORNING else Step(ops[n - 1], At(ops, n - 1))
  }

  ghost predicate EnabledAt(ops: seq<Op>, i: nat, queue: seq<Row>, p: Preset)
    requires i < |ops|
  {
    Enabled(ops[i], queue, p, At(ops, i))
  }

  ghost predicate Runs(ops: seq<Op>, queue: seq<Row>, p: Preset) {
    forall i :: 0 <= i < |ops| ==> EnabledAt(ops, i, queue, p)
  }

  // ---- Ranks in the morning queue ----

  function Left(queue: seq<Row>, gone: set<Row>): (left: set<Row>)
    ensures left <= gone
  {
    set row | row in queue && row in gone
  }

  lemma SubsetSize<T>(a: set<T>, b: set<T>)
    requires a <= b
    ensures |a| <= |b|
  {
    if a != {} {
      var x :| x in a;
      SubsetSize(a - {x}, b - {x});
    }
  }

  lemma {:induction false} UnseenCounts(queue: seq<Row>, gone: set<Row>)
    requires Queue(queue)
    ensures |queue| == |Unseen(queue, gone)| + |Left(queue, gone)|
  {
    if queue == [] {
      assert Left(queue, gone) == {};
    } else {
      var init, last := queue[..|queue| - 1], queue[|queue| - 1];
      UnseenCounts(init, gone);
      assert last !in init;
      assert queue == init + [last];
      if last in gone {
        assert Left(queue, gone) == Left(init, gone) + {last};
      } else {
        assert Left(queue, gone) == Left(init, gone);
      }
    }
  }

  // Taking cards away keeps the order of the rest: the j-th card, when still there, has as many
  // never-seen cards before it as there are left of the first j.
  lemma {:induction false} UnseenIndex(queue: seq<Row>, gone: set<Row>, j: nat)
    requires j < |queue| && queue[j] !in gone
    ensures |Unseen(queue[..j], gone)| < |Unseen(queue, gone)|
    ensures Unseen(queue, gone)[|Unseen(queue[..j], gone)|] == queue[j]
  {
    if j < |queue| - 1 {
      var init := queue[..|queue| - 1];
      UnseenIndex(init, gone, j);
      assert init[..j] == queue[..j];
    } else {
      assert queue[..j] == queue[..|queue| - 1];
    }
  }

  lemma {:induction false} UnseenElements(queue: seq<Row>, gone: set<Row>)
    ensures forall row :: row in Unseen(queue, gone) <==> row in queue && row !in gone
  {
    if queue != [] {
      UnseenElements(queue[..|queue| - 1], gone);
      assert queue == queue[..|queue| - 1] + [queue[|queue| - 1]];
    }
  }

  lemma {:induction false} UnseenSorted(queue: seq<Row>, gone: set<Row>)
    requires Queue(queue)
    ensures Queue(Unseen(queue, gone))
  {
    if queue != [] {
      UnseenSorted(queue[..|queue| - 1], gone);
      var init, last := Unseen(queue[..|queue| - 1], gone), queue[|queue| - 1];
      UnseenElements(queue[..|queue| - 1], gone);
      forall row | row in init ensures Less(row, last) {
        assert row in queue[..|queue| - 1];
      }
    }
  }

  /** Which cards a fetch admits, exactly: the j-th card of the morning's queue, while it is still
      never seen, when j is below the allowance plus the departures ranked before it. */
  lemma AdmittedExactly(queue: seq<Row>, gone: set<Row>, n: int, j: nat)
    requires Queue(queue) && j < |queue|
    ensures queue[j] in Unseen(queue, gone) && Passes(queue[j], Unseen(queue, gone), n)
            <==> queue[j] !in gone && j < n + |Left(queue[..j], gone)|
  {
    UnseenElements(queue, gone);
    if queue[j] !in gone {
      UnseenIndex(queue, gone, j);
      UnseenSorted(queue, gone);
      CutoffTakesFirst(Unseen(queue, gone), n, |Unseen(queue[..j], gone)|);
      UnseenCounts(queue[..j], gone);
    }
  }

  // A card admitted now with n to go ranked at most n plus the departures this morning.
  lemma AdmittedRank(queue: seq<Row>, gone: set<Row>, n: int, row: Row) returns (j: nat)
    requires Queue(queue)
    requires row in Unseen(queue, gone) && Passes(row, Unseen(queue, gone), n)
    ensures j < |queue| && queue[j] == row && j < n + |gone|
  {
    UnseenElements(queue, gone);
    j :| 0 <= j < |queue| && queue[j] == row;
    AdmittedExactly(queue, gone, n, j);
    SubsetSize(Left(queue[..j], gone), gone);
  }

  // ---- The cap over whole days ----

  ghost predicate WithinFirst(cards: set<Row>, queue: seq<Row>, n: nat) {
    forall row :: row in cards ==> exists j :: 0 <= j < |queue| && j < n && queue[j] == row
  }

  function Cap(p: Preset, rounds: nat): nat { (1 + rounds) * p.newPerDay }

  // What keeps the cap: every departure is either logged as an introduction or counted apart.
  ghost predicate Inv(d: Day, queue: seq<Row>, cap: nat) {
    && d.introduced <= d.gone && |d.gone| <= |d.introduced| + d.unlogged
    && WithinFirst(d.served, queue, cap + d.unlogged)
  }

  lemma FetchWithinCap(op: Op, queue: seq<Row>, p: Preset, rounds: nat, d: Day)
    requires Queue(queue) && op.Fetch? && Enabled(op, queue, p, d) && op.extraRounds <= rounds
    requires |d.gone| <= |d.introduced| + d.unlogged
    ensures WithinFirst(op.page, queue, Cap(p, rounds) + d.unlogged)
  {
    var cap := Cap(p, rounds);
    var n := Allow(p, op.extraRounds, |d.introduced|, op.reviewed, op.limit).newRemaining;
    AllowanceWithinBudgets(p, op.extraRounds, |d.introduced|, op.reviewed, op.limit);
    MoreRounds(op.extraRounds, rounds, p.newPerDay);
    forall row | row in op.page ensures exists j :: 0 <= j < |queue| && j < cap + d.unlogged && queue[j] == row {
      var j := AdmittedRank(queue, d.gone, n, row);
      assert 0 < n;
    }
  }

  lemma StepKeepsInv(op: Op, queue: seq<Row>, cap: nat, d: Day)
    requires Inv(d, queue, cap) && (op.Fetch? ==> WithinFirst(op.page, queue, cap + d.unlogged))
    ensures Inv(Step(op, d), queue, cap)
  {
    if !op.Fetch? {
      SubsetSize(d.introduced, d.introduced + {op.card});
      if op.card in d.gone { assert d.gone + {op.card} == d.gone; }
      WithinMore(d.served, queue, cap + d.unlogged, cap + Step(op, d).unlogged);
    }
  }

  lemma WithinMore(cards: set<Row>, queue: seq<Row>, n: nat, m: nat)
    requires WithinFirst(cards, queue, n) && n <= m
    ensures WithinFirst(cards, queue, m)
  {
  }

  lemma MoreRounds(a: nat, b: nat, perDay: nat)
    requires a <= b
    ensures (1 + a) * perDay <= (1 + b) * perDay
  {
    assert (1 + b) * perDay == (1 + a) * perDay + (b - a) * perDay;
  }

  lemma {:induction false} DayKeepsInv(ops: seq<Op>, queue: seq<Row>, p: Preset, rounds: nat, n: nat)
    requires Queue(queue) && Runs(ops, queue, p) && n <= |ops|
    requires forall i :: 0 <= i < |ops| && ops[i].Fetch? ==> ops[i].extraRounds <= rounds
    ensures Inv(At(ops, n), queue, Cap(p, rounds))
  {
    if n > 0 {
      DayKeepsInv(ops, queue, p, rounds, n - 1);
      assert EnabledAt(ops, n - 1, queue, p);
      if ops[n - 1].Fetch? { FetchWithinCap(ops[n - 1], queue, p, rounds, At(ops, n - 1)); }
      StepKeepsInv(ops[n - 1], queue, Cap(p, rounds), At(ops, n - 1));
    }
  }

  /** The cap over a whole day, as exact as the log allows: however fetches, refills, grades and
      settings interleave, every new card served ranked this morning within the day's allowance plus
      one place for each card that left the never-seen set without an introduction logged today. */
  lemma ServedWithinCap(ops: seq<Op>, queue: seq<Row>, p: Preset, rounds: nat)
    requires Queue(queue) && Runs(ops, queue, p)
    requires forall i :: 0 <= i < |ops| && ops[i].Fetch? ==> ops[i].extraRounds <= rounds
    ensures WithinFirst(At(ops, |ops|).served, queue, Cap(p, rounds) + At(ops, |ops|).unlogged)
  {
    DayKeepsInv(ops, queue, p, rounds, |ops|);
  }

  // A day on which only served cards are graded, at instants inside the day, and nothing is suspended.
  ghost predicate Honest(ops: seq<Op>) {
    forall i :: 0 <= i < |ops| ==>
      match ops[i]
      case Fetch(_, extraRounds, _, _) => extraRounds == 0
      case Grade(card, inDay) => inDay && card in At(ops, i).served
      case Settings(_) => false
  }

  lemma {:induction false} HonestDay(ops: seq<Op>, n: nat)
    requires Honest(ops) && n <= |ops|
    ensures At(ops, n).unlogged == 0 && At(ops, n).introduced <= At(ops, n).served
  {
    if n > 0 { HonestDay(ops, n - 1); }
  }

  lemma {:induction false} FirstSize(cards: set<Row>, queue: seq<Row>, n: nat)
    requires WithinFirst(cards, queue, n)
    ensures |cards| <= n
  {
    if n == 0 {
      assert cards == {};
    } else if n <= |queue| {
      var rest := cards - {queue[n - 1]};
      FirstSize(rest, queue, n - 1);
      SubsetSize(cards, rest + {queue[n - 1]});
    } else {
      FirstSize(cards, queue, n - 1);
    }
  }

  /** The daily new-card cap: without extra rounds or suspensions, all new cards served over the day
      lie among its first newPerDay released cards, and no more than newPerDay are introduced. */
  lemma NewCardsCapped(ops: seq<Op>, queue: seq<Row>, p: Preset)
    requires Queue(queue) && Runs(ops, queue, p) && Honest(ops)
    ensures WithinFirst(At(ops, |ops|).served, queue, p.newPerDay)
    ensures |At(ops, |ops|).introduced| <= p.newPerDay
  {
    ServedWithinCap(ops, queue, p, 0);
    HonestDay(ops, |ops|);
    FirstSize(At(ops, |ops|).introduced, queue, p.newPerDay);
  }

  // The first u cards of the queue leave unlogged, in order.
  function Departures(queue: seq<Row>, u: nat, grade: bool): seq<Op>
    requires u <= |queue|
  {
    seq(u, i requires 0 <= i < u => if grade then Grade(queue[i], false) else Settings(queue[i]))
  }

  function First(queue: seq<Row>, u: nat): set<Row>
    requires u <= |queue|
  {
    set row | row in queue[..u]
  }

  lemma RanksDiffer(queue: seq<Row>, i: nat, j: nat)
    requires Queue(queue) && i < |queue| && j < |queue|
    ensures i != j ==> queue[i] != queue[j]
  {
    assert i < j ==> Less(queue[i], queue[j]);
    assert j < i ==> Less(queue[j], queue[i]);
  }

  lemma FirstNext(queue: seq<Row>, u: nat)
    requires Queue(queue) && u < |queue|
    ensures queue[u] !in First(queue, u) && First(queue, u + 1) == First(queue, u) + {queue[u]}
  {
    forall i | 0 <= i < u ensures queue[i] != queue[u] { RanksDiffer(queue, i, u); }
    hide Queue;
    assert queue[..u + 1] == queue[..u] + [queue[u]];
  }

  lemma {:induction false} FirstCounts(queue: seq<Row>, u: nat)
    requires Queue(queue) && u <= |queue|
    ensures |First(queue, u)| == u
  {
    if u == 0 {
      hide Queue;
      assert First(queue, 0) == {};
    } else {
      FirstCounts(queue, u - 1);
      FirstNext(queue, u - 1);
      hide First, Queue;
    }
  }

  lemma {:induction false} AfterDepartures(ops: seq<Op>, queue: seq<Row>, u: nat, grade: bool, n: nat)
    requires Queue(queue) && n <= u <= |queue| && u <= |ops| && ops[..u] == Departures(queue, u, grade)
    ensures At(ops, n) == Day(First(queue, n), {}, {}, n)
  {
    if n == 0 {
      assert First(queue, 0) == {};
    } else {
      AfterDepartures(ops, queue, u, grade, n - 1);
      assert ops[n - 1] == ops[..u][n - 1];
      FirstNext(queue, n - 1);
    }
  }

  // With the first u cards gone unlogged the next newPerDay cards pass.
  lemma LastPasses(queue: seq<Row>, p: Preset, u: nat)
    requires Queue(queue) && p.newPerDay > 0 && u + p.newPerDay <= |queue|
    ensures var row, unseen := queue[u + p.newPerDay - 1], Unseen(queue, First(queue, u));
            row in unseen && Passes(row, unseen, p.newPerDay)
  {
    var j := u + p.newPerDay - 1;
    AdmittedExactly(queue, First(queue, u), p.newPerDay, j);
    FirstCounts(queue, u);
    forall i | 0 <= i < u ensures queue[i] != queue[j] { RanksDiffer(queue, i, j); }
    hide Queue, Passes, Unseen;
    FirstLeft(queue, u, j);
  }

  lemma FirstLeft(queue: seq<Row>, u: nat, j: nat)
    requires u <= j <= |queue|
    ensures Left(queue[..j], First(queue, u)) == First(queue, u)
  {
    forall row ensures row in Left(queue[..j], First(queue, u)) <==> row in First(queue, u) {
      if row in queue[..u] {
        var i :| 0 <= i < u && queue[..u][i] == row;
        assert queue[..j][i] == row;
      }
    }
  }

  /** The bound is reached: for every queue long enough, every allowance and every number of unlogged
      departures, suspensions or grades outside the day, some day serves the card of the last rank
      the bound leaves open. */
  lemma UnloggedDepartureServesAnother(queue: seq<Row>, p: Preset, u: nat, grade: bool) returns (ops: seq<Op>)
    requires Queue(queue) && p.newPerDay > 0 && p.revPerDay > 0 && u + p.newPerDay <= |queue|
    ensures Runs(ops, queue, p) && At(ops, |ops|).unlogged == u
    ensures forall op :: op in ops && op.Fetch? ==> op.extraRounds == 0
    ensures queue[u + p.newPerDay - 1] in At(ops, |ops|).served
    ensures !WithinFirst(At(ops, |ops|).served, queue, p.newPerDay + u - 1)
  {
    var last := queue[u + p.newPerDay - 1];
    var fetch := Fetch({last}, 0, 0, 1);
    ops := Departures(queue, u, grade) + [fetch];
    assert ops[..u] == Departures(queue, u, grade);
    AfterDepartures(ops, queue, u, grade, u);
    LastPasses(queue, p, u);
    assert Allow(p, 0, 0, 0, 1).newRemaining == p.newPerDay;
    assert EnabledAt(ops, u, queue, p);
    forall i | 0 <= i < |ops| ensures EnabledAt(ops, i, queue, p) {
      if i < u { assert ops[i] == Departures(queue, u, grade)[i]; }
    }
    assert At(ops, u + 1) == Step(fetch, At(ops, u));
    forall j | 0 <= j < |queue| && queue[j] == last ensures j == u + p.newPerDay - 1 {
      RanksDiffer(queue, j, u + p.newPerDay - 1);
    }
  }

  // ---- The budgets are spent ----

  function DayTotal(p: Preset, rounds: nat): nat { (1 + rounds) * p.revPerDay }

  // The j-th card of the morning is open to a fetch: the total is not used up, the card is still
  // never-seen, and with the cards before it that have left it is within the new budget.
  predicate Open(queue: seq<Row>, p: Preset, d: Day, extraRounds: nat, reviewed: nat, j: nat)
    requires j < |queue|
  {
    && |d.introduced| + reviewed < DayTotal(p, extraRounds)
    && queue[j] !in d.gone
    && |d.introduced| + j < Cap(p, extraRounds) + |Left(queue[..j], d.gone)|
  }

  ghost predicate IsOpen(queue: seq<Row>, p: Preset, d: Day, extraRounds: nat, reviewed: nat, row: Row) {
    exists j: nat :: j < |queue| && queue[j] == row && Open(queue, p, d, extraRounds, reviewed, j)
  }

  lemma {:induction false} LeftAtMost(queue: seq<Row>, gone: set<Row>)
    ensures |Left(queue, gone)| <= |queue|
  {
    if queue == [] {
      assert Left(queue, gone) == {};
    } else {
      var init, last := queue[..|queue| - 1], queue[|queue| - 1];
      LeftAtMost(init, gone);
      assert queue == init + [last];
      assert Left(queue, gone) <= Left(init, gone) + {last};
      SubsetSize(Left(queue, gone), Left(init, gone) + {last});
    }
  }

  lemma OpenExactly(queue: seq<Row>, p: Preset, d: Day, extraRounds: nat, reviewed: nat, limit: nat, j: nat)
    requires Queue(queue) && j < |queue|
    ensures var n := Allow(p, extraRounds, |d.introduced|, reviewed, limit).newRemaining;
            queue[j] in Unseen(queue, d.gone) && Passes(queue[j], Unseen(queue, d.gone), n)
            <==> Open(queue, p, d, extraRounds, reviewed, j)
  {
    var n := Allow(p, extraRounds, |d.introduced|, reviewed, limit).newRemaining;
    AllowanceWithinBudgets(p, extraRounds, |d.introduced|, reviewed, limit);
    AdmittedExactly(queue, d.gone, n, j);
    LeftAtMost(queue[..j], d.gone);
    var newCap := Cap(p, extraRounds);
    assert |d.introduced| + reviewed < DayTotal(p, extraRounds) ==> n == if newCap < |d.introduced| then 0 else newCap - |d.introduced|;
    hide Allow, Unseen, Left, IsLeft, IsPageSize, Queue;
  }

  /** Whatever the day has been, a fetch may show exactly the cards still open to it, as many as the limit
      and the shared total take. */
  lemma FetchShowsOpen(ops: seq<Op>, queue: seq<Row>, p: Preset, page: set<Row>, extraRounds: nat, reviewed: nat, limit: nat)
    requires Queue(queue) && Runs(ops, queue, p)
    ensures var d := At(ops, |ops|);
            Runs(ops + [Fetch(page, extraRounds, reviewed, limit)], queue, p) <==>
            && (forall row :: row in page ==> IsOpen(queue, p, d, extraRounds, reviewed, row))
            && |page| <= limit
            && (page != {} ==> |d.introduced| + reviewed + |page| <= DayTotal(p, extraRounds))
  {
    var d, op := At(ops, |ops|), Fetch(page, extraRounds, reviewed, limit);
    hide Runs, Unseen, Passes, Allow, IsOpen, Queue, At, DayTotal, Cap;
    RunsOneMore(ops, op, queue, p);
    ShowsOpen(op, queue, p, d);
    if forall row :: row in page ==> IsOpen(queue, p, d, extraRounds, reviewed, row) {
      OpenHasBudget(queue, p, d, extraRounds, reviewed, page);
      PageFits(op, p, d, queue);
    }
  }

  lemma OpenHasBudget(queue: seq<Row>, p: Preset, d: Day, extraRounds: nat, reviewed: nat, page: set<Row>)
    requires forall row :: row in page ==> IsOpen(queue, p, d, extraRounds, reviewed, row)
    ensures page != {} ==> |d.introduced| + reviewed < DayTotal(p, extraRounds)
  {
    if page != {} {
      var row :| row in page;
      assert IsOpen(queue, p, d, extraRounds, reviewed, row);
    }
  }

  lemma {:induction false} AtPrefix(ops: seq<Op>, op: Op, n: nat)
    requires n <= |ops|
    ensures At(ops + [op], n) == At(ops, n)
  {
    if n > 0 { AtPrefix(ops, op, n - 1); }
  }

  lemma RunsOneMore(ops: seq<Op>, op: Op, queue: seq<Row>, p: Preset)
    requires Runs(ops, queue, p)
    ensures Runs(ops + [op], queue, p) <==> Enabled(op, queue, p, At(ops, |ops|))
  {
    var more := ops + [op];
    AtPrefix(ops, op, |ops|);
    hide Enabled;
    assert Enabled(op, queue, p, At(ops, |ops|)) <==> EnabledAt(more, |ops|, queue, p);
    forall i | 0 <= i < |ops| ensures EnabledAt(more, i, queue, p) {
      AtPrefix(ops, op, i);
      assert EnabledAt(ops, i, queue, p);
    }
  }

  lemma ShowsOpen(op: Op, queue: seq<Row>, p: Preset, d: Day)
    requires Queue(queue) && op.Fetch?
    ensures var a := Allow(p, op.extraRounds, |d.introduced|, op.reviewed, op.limit);
            (forall row :: row in op.page ==> row in Unseen(queue, d.gone) && Passes(row, Unseen(queue, d.gone), a.newRemaining))
            <==> forall row :: row in op.page ==> IsOpen(queue, p, d, op.extraRounds, op.reviewed, row)
  {
    var n := Allow(p, op.extraRounds, |d.introduced|, op.reviewed, op.limit).newRemaining;
    UnseenElements(queue, d.gone);
    hide Allow, Unseen, Passes, Open, Queue;
    forall row
      ensures row in Unseen(queue, d.gone) && Passes(row, Unseen(queue, d.gone), n)
              <==> IsOpen(queue, p, d, op.extraRounds, op.reviewed, row)
    {
      forall j: nat | j < |queue| && queue[j] == row
        ensures row in Unseen(queue, d.gone) && Passes(row, Unseen(queue, d.gone), n)
                <==> Open(queue, p, d, op.extraRounds, op.reviewed, j)
      {
        OpenExactly(queue, p, d, op.extraRounds, op.reviewed, op.limit, j);
      }
      if row in Unseen(queue, d.gone) {
        var j :| 0 <= j < |queue| && queue[j] == row;
      }
    }
  }

  lemma PageFits(op: Op, p: Preset, d: Day, queue: seq<Row>)
    requires op.Fetch?
    requires op.page != {} ==> |d.introduced| + op.reviewed < DayTotal(p, op.extraRounds)
    ensures |op.page| <= Allow(p, op.extraRounds, |d.introduced|, op.reviewed, op.limit).limit <==>
            && |op.page| <= op.limit
            && (op.page != {} ==> |d.introduced| + op.reviewed + |op.page| <= DayTotal(p, op.extraRounds))
  {
    AllowanceWithinBudgets(p, op.extraRounds, |d.introduced|, op.reviewed, op.limit);
  }
}
