/** What an exported package's columns say when they are read back: due dates, intervals, tags and
    fields (internal/apkg/ir.go, internal/apkg/write.go, internal/apkg/dbexport.go). */
module AnkiCodec {
  import opened Wrappers
  import opened Strings

  const MIN_INT64 := -0x8000_0000_0000_0000
  const MAX_INT64 := 0x7FFF_FFFF_FFFF_FFFF
  const MIN_INT32 := -0x8000_0000
  const MAX_INT32 := 0x7FFF_FFFF

  predicate Int64(x: int) { MIN_INT64 <= x <= MAX_INT64 }

  // int64 arithmetic wraps.
  function Wrap64(x: int): (w: int)
    ensures Int64(w) && (Int64(x) ==> w == x)
  {
    (x + 0x8000_0000_0000_0000) % 0x1_0000_0000_0000_0000 - 0x8000_0000_0000_0000
  }

  // Go's / truncates toward zero, % follows it.
  function Quotient(a: int, b: int): int
    requires b > 0
  {
    if a >= 0 then a / b else -(-a / b)
  }

  function Remainder(a: int, b: int): int
    requires b > 0
  {
    a - b * Quotient(a, b)
  }

  // ---- Intervals ----

  const SECONDS_PER_DAY := 86400

  function IntervalSeconds(ivl: int): int {
    if ivl == MIN_INT64 || ivl > MAX_INT64 / SECONDS_PER_DAY then MAX_INT64
    else if ivl < 0 then Wrap64(-ivl)
    else Wrap64(ivl * SECONDS_PER_DAY)
  }

  function UnintervalSeconds(s: int): int {
    if Remainder(s, SECONDS_PER_DAY) == 0 then Quotient(s, SECONDS_PER_DAY) else Wrap64(-s)
  }

  /** Reading back a written interval gives it back exactly for the non-negative ones, the largest
      int64 included. */
  lemma IntervalReadBack(s: int)
    requires Int64(s)
    ensures IntervalSeconds(UnintervalSeconds(s)) == s <==> s >= 0
  {
    var days := Quotient(s, SECONDS_PER_DAY);
    if s >= 0 && Remainder(s, SECONDS_PER_DAY) == 0 {
      assert days * SECONDS_PER_DAY == s;
    }
  }

  lemma WholeDays(days: nat)
    ensures days * SECONDS_PER_DAY / SECONDS_PER_DAY == days
  {
  }

  lemma DaysWrittenBack(ivl: int)
    requires 0 <= ivl <= MAX_INT64 / SECONDS_PER_DAY
    ensures UnintervalSeconds(IntervalSeconds(ivl)) == ivl
  {
    WholeDays(ivl);
    assert IntervalSeconds(ivl) == ivl * SECONDS_PER_DAY;
  }

  lemma SecondsWrittenBack(ivl: int)
    requires MIN_INT64 < ivl < 0
    ensures UnintervalSeconds(IntervalSeconds(ivl)) == ivl <==> -ivl % SECONDS_PER_DAY != 0
  {
    var s := -ivl;
    assert IntervalSeconds(ivl) == s;
    hide IntervalSeconds;
    assert Quotient(s, SECONDS_PER_DAY) == s / SECONDS_PER_DAY && Quotient(s, SECONDS_PER_DAY) >= 0;
    assert Remainder(s, SECONDS_PER_DAY) == s - SECONDS_PER_DAY * (s / SECONDS_PER_DAY) == s % SECONDS_PER_DAY;
    hide Quotient, Remainder;
  }

  lemma SaturatedWrittenBack(ivl: int)
    requires Int64(ivl) && (ivl == MIN_INT64 || ivl > MAX_INT64 / SECONDS_PER_DAY)
    ensures UnintervalSeconds(IntervalSeconds(ivl)) != ivl
  {
    assert UnintervalSeconds(MAX_INT64) == -MAX_INT64;
  }

  /** Writing back a read interval gives it back exactly for whole days that fit and for seconds that
      are no whole number of days. */
  lemma IntervalWrittenBack(ivl: int)
    requires Int64(ivl)
    ensures UnintervalSeconds(IntervalSeconds(ivl)) == ivl <==>
            0 <= ivl <= MAX_INT64 / SECONDS_PER_DAY || (MIN_INT64 < ivl < 0 && -ivl % SECONDS_PER_DAY != 0)
  {
    hide UnintervalSeconds, IntervalSeconds;
    if ivl == MIN_INT64 || ivl > MAX_INT64 / SECONDS_PER_DAY {
      SaturatedWrittenBack(ivl);
    } else if ivl < 0 {
      SecondsWrittenBack(ivl);
    } else {
      DaysWrittenBack(ivl);
    }
  }

  // ---- Due dates ----

  // Instants and durations are in nanoseconds.
  type Instant = int

  const SECOND := 1_000_000_000
  const DAY := 86400 * SECOND

  // time.Time.Sub saturates.
  function Sub(a: Instant, b: Instant): int {
    if a - b > MAX_INT64 then MAX_INT64 else if a - b < MIN_INT64 then MIN_INT64 else a - b
  }

  // time.Time.Unix is the second the instant lies in.
  function Unix(t: Instant): int { t / SECOND }

  // A duration in whole days, halves away from zero.
  function RoundDays(d: int): int {
    if d >= 0 then (2 * d + DAY) / (2 * DAY) else -((-2 * d + DAY) / (2 * DAY))
  }

  const NEW := 0
  const LEARNING := 1
  const REVIEW := 2
  const DAY_LEARNING := 3
  const PREVIEW := 4
  const SUSPENDED := -1
  const SCHED_BURIED := -2
  const USER_BURIED := -3

  const TYPE_NEW := 0
  const TYPE_REVIEW := 2

  const EPOCH_SECONDS_THRESHOLD := 1_000_000_000

  datatype Due = DueNone | DuePosition(position: int) | DueAt(at: Instant)

  function ClampInt32(v: int): int {
    if v < MIN_INT32 then MIN_INT32 else if v > MAX_INT32 then MAX_INT32 else v
  }

  function DaysAfter(crt: Instant, v: int): Instant { crt + Wrap64(v * DAY) }

  function ResolveDue(queue: int, typ: int, due: int, odue: int, odid: int, crt: Instant): Due {
    var v := if odid != 0 then odue else due;
    if queue == NEW then DuePosition(ClampInt32(v))
    else if queue == LEARNING || queue == PREVIEW then DueAt(v * SECOND)
    else if queue == REVIEW || queue == DAY_LEARNING then DueAt(DaysAfter(crt, v))
    else if queue == SUSPENDED || queue == SCHED_BURIED || queue == USER_BURIED then
      if typ == TYPE_NEW then DuePosition(ClampInt32(v))
      else if v >= EPOCH_SECONDS_THRESHOLD then DueAt(v * SECOND)
      else DueAt(DaysAfter(crt, v))
    else DueNone
  }

  function UnresolveDue(queue: int, d: Due, crt: Instant): int {
    match d
    case DuePosition(position) => position
    case DueAt(at) =>
      if queue == REVIEW || queue == DAY_LEARNING then
        var days := RoundDays(Sub(at, crt));
        if days < 0 then 0 else days
      else Unix(at)
    case DueNone => 0
  }

  // One learner's row for a card.
  datatype State = State(due: Instant, state: int, suspended: bool, buriedUntil: Option<Instant>, scheduledDays: int)

  datatype Scheduling = Scheduling(queue: int, typ: int, due: Due, intervalSeconds: int)

  function DeriveCardScheduling(state: Option<State>, now: Instant, position: int): Scheduling {
    if state.None? then Scheduling(NEW, TYPE_NEW, DuePosition(position), 0)
    else
      var s := state.value;
      var buried := s.buriedUntil.Some? && s.buriedUntil.value > now;
      var queue :=
        if s.suspended then SUSPENDED
        else if buried then USER_BURIED
        else if s.state == TYPE_NEW then NEW
        else if s.state == TYPE_REVIEW then REVIEW
        else LEARNING;
      Scheduling(queue, s.state, if s.state == TYPE_NEW then DuePosition(position) else DueAt(s.due),
                 s.scheduledDays * SECONDS_PER_DAY)
  }

  /** The anchor: the earliest review due date, floored to its day. No review card is due before it. */
  method DeriveCrt(reviewDueAts: seq<Instant>, fallback: Instant) returns (crt: Instant)
    ensures crt % DAY == 0
    ensures forall k :: 0 <= k < |reviewDueAts| ==> crt <= reviewDueAts[k]
    ensures reviewDueAts == [] ==> crt <= fallback < crt + DAY
    ensures reviewDueAts != [] ==> exists k :: 0 <= k < |reviewDueAts| && reviewDueAts[k] < crt + DAY
  {
    var earliest := fallback;
    if |reviewDueAts| > 0 {
      earliest := reviewDueAts[0];
      ghost var at := 0;
      for i := 1 to |reviewDueAts|
        invariant 0 <= at < |reviewDueAts| && earliest == reviewDueAts[at]
        invariant forall k :: 0 <= k < i ==> earliest <= reviewDueAts[k]
      {
        if reviewDueAts[i] < earliest { earliest, at := reviewDueAts[i], i; }
      }
    }
    crt := earliest / DAY * DAY;
  }

  // How a package says whether a card is held, and of what kind it is.
  predicate ReadsSuspended(sc: Scheduling) { sc.queue == SUSPENDED }

  predicate ReadsBuried(sc: Scheduling) { sc.queue == SCHED_BURIED || sc.queue == USER_BURIED }

  /** The queue tells suspended, buried and active cards apart, suspension winning over burial; an active
      card is in the queue of its type; and type and scheduled days are read back from their columns. */
  lemma HeldIsTold(state: State, now: Instant, position: int)
    ensures var sc := DeriveCardScheduling(Some(state), now, position);
            var buried := state.buriedUntil.Some? && now < state.buriedUntil.value;
            && (ReadsSuspended(sc) <==> state.suspended)
            && (ReadsBuried(sc) <==> !state.suspended && buried)
            && (!state.suspended && !buried ==>
                  sc.queue == if state.state == TYPE_NEW then NEW else if state.state == TYPE_REVIEW then REVIEW else LEARNING)
            && sc.typ == state.state && UnintervalSeconds(sc.intervalSeconds) == state.scheduledDays
  {
    var secs := state.scheduledDays * SECONDS_PER_DAY;
    assert secs == SECONDS_PER_DAY * state.scheduledDays;
    assert Remainder(secs, SECONDS_PER_DAY) == 0 && Quotient(secs, SECONDS_PER_DAY) == state.scheduledDays;
  }

  /** A card without a row is written as a new card at its place, with no interval. */
  lemma UnseenIsNew(now: Instant, position: int)
    ensures DeriveCardScheduling(None, now, position) == Scheduling(NEW, TYPE_NEW, DuePosition(position), 0)
    ensures !ReadsSuspended(DeriveCardScheduling(None, now, position)) && !ReadsBuried(DeriveCardScheduling(None, now, position))
  {
  }

  // What the reader makes of the card's due column.
  function ReadBack(s: Scheduling, crt: Instant): Due {
    ResolveDue(s.queue, s.typ, UnresolveDue(s.queue, s.due, crt), 0, 0, crt)
  }

  /** A never-seen card keeps its queue position, suspended and buried included. */
  lemma PositionReadBack(state: Option<State>, now: Instant, position: int, crt: Instant)
    requires MIN_INT32 <= position <= MAX_INT32
    requires state.Some? ==> state.value.state == TYPE_NEW
    ensures ReadBack(DeriveCardScheduling(state, now, position), crt) == DuePosition(position)
  {
  }

  // The instant is recovered to the second.
  predicate ToTheSecond(d: Due, at: Instant) { d.DueAt? && d.at <= at < d.at + SECOND }

  /** A learning card's instant comes back to the second. */
  lemma LearningReadBack(state: State, now: Instant, position: int, crt: Instant)
    requires state.state != TYPE_NEW && state.state != TYPE_REVIEW && !state.suspended
    requires state.buriedUntil.Some? ==> state.buriedUntil.value <= now
    ensures ToTheSecond(ReadBack(DeriveCardScheduling(Some(state), now, position), crt), state.due)
  {
  }

  const MAX_DAYS := 106751

  const TWO_64 := 0x1_0000_0000_0000_0000

  // How often a day count overflows a duration.
  function Wraps(v: int): int { (v * DAY + 0x8000_0000_0000_0000) / TWO_64 }

  // The epoch second plus the whole seconds the overflow takes off again, past-the-second part included.
  function Balance(due: Instant): int {
    var v := Unix(due);
    v + (due - v * SECOND + Wraps(v) * TWO_64) / SECOND
  }

  /** The one midnight anchor from which a day count of v days, overflow included, names the second v:
      there is one exactly when the balance is a whole number of days. */
  predicate NamedFrom(due: Instant, crt: Instant) {
    Balance(due) % SECONDS_PER_DAY == 0 && crt == (Balance(due) / SECONDS_PER_DAY - Unix(due)) * DAY
  }

  lemma DaysAfterIs(crt: Instant, v: int)
    ensures DaysAfter(crt, v) == crt + v * DAY - Wraps(v) * TWO_64
  {
  }

  lemma NamedExactly(due: Instant, day: int)
    ensures ToTheSecond(DueAt(DaysAfter(day * DAY, Unix(due))), due) <==> NamedFrom(due, day * DAY)
  {
    hide Wraps, DaysAfter, Unix;
    var v := Unix(due);
    DaysAfterIs(day * DAY, v);
    Gap(due - v * SECOND + Wraps(v) * TWO_64, Balance(due), day, v);
    Midnight(Balance(due), day, v);
    assert due - DaysAfter(day * DAY, v) == due - v * SECOND + Wraps(v) * TWO_64 + v * SECOND - (day + v) * DAY;
  }

  lemma Gap(rest: int, balance: int, day: int, v: int)
    requires balance == v + rest / SECOND
    ensures 0 <= rest + v * SECOND - (day + v) * DAY < SECOND <==> balance == SECONDS_PER_DAY * (day + v)
  {
    var whole, part := rest / SECOND, rest % SECOND;
    assert rest == whole * SECOND + part;
    assert rest + v * SECOND - (day + v) * DAY == SECOND * (balance - SECONDS_PER_DAY * (day + v)) + part;
  }

  lemma Midnight(balance: int, day: int, v: int)
    ensures balance == SECONDS_PER_DAY * (day + v) <==>
            balance % SECONDS_PER_DAY == 0 && day * DAY == (balance / SECONDS_PER_DAY - v) * DAY
  {
  }

  /** A held card's instant comes back to the second once its epoch second reaches the reader's
      threshold. Below it the second is taken for a day count, and read from a midnight anchor it comes
      back exactly when that anchor is the one it is named from. */
  lemma HeldReadBack(state: State, now: Instant, position: int, crt: Instant)
    requires state.state != TYPE_NEW
    requires state.suspended || (state.buriedUntil.Some? && state.buriedUntil.value > now)
    ensures var v, back := Unix(state.due), ReadBack(DeriveCardScheduling(Some(state), now, position), crt);
            && (v >= EPOCH_SECONDS_THRESHOLD ==> ToTheSecond(back, state.due))
            && (v < EPOCH_SECONDS_THRESHOLD ==> back == DueAt(DaysAfter(crt, v)))
            && (v < EPOCH_SECONDS_THRESHOLD && crt % DAY == 0 ==>
                  (ToTheSecond(back, state.due) <==> NamedFrom(state.due, crt)))
            && (0 < v <= MAX_DAYS && crt >= 0 ==> !ToTheSecond(back, state.due))
  {
    hide Balance, NamedFrom;
    var v := Unix(state.due);
    if 0 < v <= MAX_DAYS { assert DaysAfter(crt, v) == crt + v * DAY; }
    if crt % DAY == 0 {
      assert crt == crt / DAY * DAY;
      NamedExactly(state.due, crt / DAY);
    }
  }

  /** Which dates below the threshold can come back at all: those whose balance is a whole number of
      days, and each of them from one anchor only. */
  lemma HeldRecoverable(due: Instant)
    ensures (exists day: int :: ToTheSecond(DueAt(DaysAfter(day * DAY, Unix(due))), due))
            <==> Balance(due) % SECONDS_PER_DAY == 0
    ensures forall x: int, y: int | ToTheSecond(DueAt(DaysAfter(x * DAY, Unix(due))), due)
                                    && ToTheSecond(DueAt(DaysAfter(y * DAY, Unix(due))), due) :: x == y
  {
    hide Balance, DaysAfter;
    forall day: int
      ensures ToTheSecond(DueAt(DaysAfter(day * DAY, Unix(due))), due) <==> NamedFrom(due, day * DAY)
    {
      NamedExactly(due, day);
    }
    if Balance(due) % SECONDS_PER_DAY == 0 {
      var day := Balance(due) / SECONDS_PER_DAY - Unix(due);
      assert NamedFrom(due, day * DAY);
      assert ToTheSecond(DueAt(DaysAfter(day * DAY, Unix(due))), due);
    }
  }

  /** While the count fits a duration only multiples of a day have such an anchor, and it lies before
      1970 for every date after it. */
  lemma NamedWithinDuration(due: Instant, crt: Instant)
    requires -MAX_DAYS <= Unix(due) <= MAX_DAYS
    ensures var v := Unix(due);
            NamedFrom(due, crt) <==> v % SECONDS_PER_DAY == 0 && crt == (v / SECONDS_PER_DAY - v) * DAY
  {
    assert Wraps(Unix(due)) == 0;
    assert Balance(due) == Unix(due);
  }

  predicate WithinHalfDay(d: Due, at: Instant) { d.DueAt? && -DAY <= 2 * (d.at - at) <= DAY }

  /** A review card's due date comes back within twelve hours, without clamping, exactly when it lies
      less than 106751.5 days behind the anchor: from there on the day count no longer fits a duration. */
  lemma ReviewReadBack(state: State, now: Instant, position: int, crt: Instant)
    requires state.state == TYPE_REVIEW && !state.suspended && crt <= state.due
    requires state.buriedUntil.Some? ==> state.buriedUntil.value <= now
    ensures var s := DeriveCardScheduling(Some(state), now, position);
            && RoundDays(Sub(state.due, crt)) >= 0
            && (WithinHalfDay(ReadBack(s, crt), state.due) <==> 2 * (state.due - crt) < (2 * MAX_DAYS + 1) * DAY)
  {
    var d := state.due - crt;
    assert ReadBack(DeriveCardScheduling(Some(state), now, position), crt) == DueAt(DaysAfter(crt, RoundDays(Sub(state.due, crt))));
    assert Sub(state.due, crt) == Sub(d, 0);
    hide ReadBack, DeriveCardScheduling, Sub, RoundDays, Wrap64;
    RoundedBack(d);
  }

  // The rounded count, multiplied out again.
  lemma RoundedBack(d: int)
    requires d >= 0
    ensures var back := Wrap64(RoundDays(Sub(d, 0)) * DAY);
            RoundDays(Sub(d, 0)) >= 0 && (-DAY <= 2 * (back - d) <= DAY <==> 2 * d < (2 * MAX_DAYS + 1) * DAY)
  {
    var days := RoundDays(Sub(d, 0));
    if 2 * d < (2 * MAX_DAYS + 1) * DAY {
      assert days <= MAX_DAYS;
    } else {
      assert days == MAX_DAYS + 1;
      assert Wrap64(days * DAY) < 0;
    }
  }

  /** A date the reader mistakes: a card due on the first day of 2001 and suspended comes back wrong. */
  lemma EarlyHeldMistaken(now: Instant, position: int)
    ensures var due := 978_307_200 * SECOND;
            var state := State(due, TYPE_REVIEW, true, None, 10);
            !WithinHalfDay(ReadBack(DeriveCardScheduling(Some(state), now, position), due), due)
  {
  }

  // ---- Tags and fields ----

  function EncodeTags(tags: seq<string>): string {
    if |tags| == 0 then "" else " " + Join(tags, ' ') + " "
  }

  /** Tags come back exactly when each is a word: not empty, and without white space. */
  lemma TagsReadBack(tags: seq<string>)
    ensures Fields(EncodeTags(tags)) == tags <==> forall k :: 0 <= k < |tags| ==> Word(tags[k])
  {
    if tags != [] && forall k :: 0 <= k < |tags| ==> Word(tags[k]) {
      FieldsOfTags(tags);
      FieldsSpace(" " + Join(tags, ' '), ' ');
    }
  }

  lemma {:induction false} FieldsOfTags(tags: seq<string>)
    requires tags != [] && forall k :: 0 <= k < |tags| ==> Word(tags[k])
    ensures Fields(" " + Join(tags, ' ')) == tags
  {
    hide Fields, Join;
    var front, last := tags[..|tags| - 1], tags[|tags| - 1];
    assert tags == front + [last];
    if front == [] {
      OneTag(last);
    } else {
      FieldsOfTags(front);
      JoinSnoc(front, ' ', last);
      OneMoreTag(" " + Join(front, ' '), last);
      assert " " + Join(tags, ' ') == " " + Join(front, ' ') + " " + last;
    }
  }

  lemma OneTag(tag: string)
    requires Word(tag)
    ensures Fields(" " + Join([tag], ' ')) == [tag]
  {
    FieldsSpace("", ' ');
    assert "" + " " == " ";
    FieldsWord(" ", tag);
  }

  lemma OneMoreTag(s: string, tag: string)
    requires Word(tag)
    ensures Fields(s + " " + tag) == Fields(s) + [tag]
  {
    FieldsSpace(s, ' ');
    FieldsWord(s + " ", tag);
  }

  /** Fields come back exactly when there is one and none holds the unit separator. */
  lemma FieldsReadBack(fields: seq<string>)
    ensures Split(Join(fields, '\U{1F}'), '\U{1F}') == fields <==>
            fields != [] && forall k :: 0 <= k < |fields| ==> '\U{1F}' !in fields[k]
  {
    SplitOfJoin(fields, '\U{1F}');
  }
}
