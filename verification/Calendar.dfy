/** The class calendar: which lesson a date has reached, and on which date a lesson falls
    (internal/review/calendar.go). */
module Calendar {
  import opened Wrappers
  import opened Sorting

  // A civil date: days since 0001-01-01, Go's zero time, which was a Monday.
  type Date = int

  const ZERO_DATE: Date := 0
  const MAX_RELEASE_DAY := 999
  const MAX_SKIP_DATES := 60
  const RELEASE_GATE_OFF := 0x7fff_ffff

  // The whole days a time.Duration can hold: time.Sub saturates there.
  const MAX_DURATION_DAYS := 106_751

  datatype Calendar = Calendar(startDate: Date, weekdays: seq<int>, skip: seq<Date>) {
    predicate Configured() { startDate != ZERO_DATE && weekdays != [] }

    predicate Meets(iso: int) { iso in weekdays }

    predicate Skipped(d: Date) { d in skip }
  }

  const NO_CALENDAR := Calendar(ZERO_DATE, [], [])

  function IsoWeekday(d: Date): int { d % 7 + 1 }

  // The date of the first of January, in the proleptic Gregorian calendar.
  function NewYear(year: int): Date { 365 * (year - 1) + (year - 1) / 4 - (year - 1) / 100 + (year - 1) / 400 }

  /** Weekdays are those of ISO 8601: they go round from 1 to 7, and 2024 began on a Monday. */
  lemma WeekdaysAreIso(d: Date)
    ensures 1 <= IsoWeekday(d) <= 7
    ensures IsoWeekday(d + 1) == if IsoWeekday(d) == 7 then 1 else IsoWeekday(d) + 1
    ensures IsoWeekday(NewYear(2024)) == 1 && IsoWeekday(NewYear(2000)) == 6 && NewYear(1) == ZERO_DATE
  {
  }

  // The wire form, with each date string already parsed: None did not parse.
  datatype Wire = Wire(startDate: Option<Date>, weekdays: seq<int>, skip: seq<Option<Date>>)

  datatype CalendarError = ErrInvalidCalendar

  /** What every calendar built from the wire satisfies. */
  ghost predicate Valid(c: Calendar) {
    && (forall i :: 0 <= i < |c.weekdays| ==> 1 <= c.weekdays[i] <= 7)
    && (forall i, j :: 0 <= i < j < |c.weekdays| ==> c.weekdays[i] < c.weekdays[j])
    && (forall i, j :: 0 <= i < j < |c.skip| ==> c.skip[i] < c.skip[j])
    && |c.skip| <= MAX_SKIP_DATES
  }

  ghost predicate WireOk(w: Wire) {
    && w.startDate.Some? && w.weekdays != [] && |w.skip| <= MAX_SKIP_DATES
    && (forall i :: 0 <= i < |w.weekdays| ==> 1 <= w.weekdays[i] <= 7)
    && (forall i :: 0 <= i < |w.skip| ==> w.skip[i].Some?)
  }

  /** Builds a calendar or rejects the whole input; a calendar keeps exactly the submitted
      weekdays and skips, sorted and without duplicates. */
  method CalendarFromWire(w: Wire) returns (r: Result<Calendar, CalendarError>)
    ensures r.Ok? <==> WireOk(w)
    ensures r.Ok? ==>
              && Valid(r.value) && r.value.weekdays != []
              && r.value.startDate == w.startDate.value
              && (forall d :: d in r.value.weekdays <==> d in w.weekdays)
              && (forall d :: d in r.value.skip <==> Some(d) in w.skip)
  {
    if w.startDate.None? { return Err(ErrInvalidCalendar); }
    var days: seq<int> := [];
    for i := 0 to |w.weekdays|
      invariant forall j :: 0 <= j < i ==> 1 <= w.weekdays[j] <= 7
      invariant forall d :: d in days <==> d in w.weekdays[..i]
      invariant Distinct(days) && (i > 0 ==> days != [])
    {
      var day := w.weekdays[i];
      assert w.weekdays[..i + 1] == w.weekdays[..i] + [day];
      if day < 1 || day > 7 { return Err(ErrInvalidCalendar); }
      if day !in days { days := days + [day]; }
    }
    assert w.weekdays[..|w.weekdays|] == w.weekdays;
    if |days| == 0 {
      return Err(ErrInvalidCalendar);
    }
    assert days[0] in days;
    var weekdays := Sort(days, (a: int, b: int) => a < b);
    PermutationElements(weekdays, days);
    if |w.skip| > MAX_SKIP_DATES { return Err(ErrInvalidCalendar); }
    var skips: seq<Date> := [];
    for i := 0 to |w.skip|
      invariant forall j :: 0 <= j < i ==> w.skip[j].Some?
      invariant forall d :: d in skips <==> Some(d) in w.skip[..i]
      invariant Distinct(skips) && |skips| <= i
    {
      assert w.skip[..i + 1] == w.skip[..i] + [w.skip[i]];
      match w.skip[i] {
        case None => return Err(ErrInvalidCalendar);
        case Some(d) => if d !in skips { skips := skips + [d]; }
      }
    }
    assert w.skip[..|w.skip|] == w.skip;
    var skip := Sort(skips, (a: int, b: int) => a < b);
    PermutationElements(skip, skips);
    forall i | 0 <= i < |weekdays| ensures 1 <= weekdays[i] <= 7 {
      assert weekdays[i] in weekdays;
      var j :| 0 <= j < |w.weekdays| && w.weekdays[j] == weekdays[i];
    }
    r := Ok(Calendar(w.startDate.value, weekdays, skip));
  }

  // ---- The day-by-day reference ----

  // Scheduled: a meeting weekday. Held: a meeting weekday that is not skipped.
  datatype Rule = Scheduled | Held

  predicate On(c: Calendar, rule: Rule, d: Date) {
    c.Meets(IsoWeekday(d)) && (rule.Held? ==> !c.Skipped(d))
  }

  // How many days of [lo, hi) a rule selects, one day at a time.
  function Count(c: Calendar, rule: Rule, lo: Date, hi: Date): nat
    decreases if hi <= lo then 0 else hi - lo
  {
    if hi <= lo then 0 else Count(c, rule, lo, hi - 1) + if On(c, rule, hi - 1) then 1 else 0
  }

  /** The lesson a date has reached: the meetings held in [startDate, d]. */
  function ClassDay(c: Calendar, d: Date): nat {
    if !c.Configured() then 0 else Count(c, Held, c.startDate, d + 1)
  }

  lemma {:induction false} CountSplit(c: Calendar, rule: Rule, lo: Date, mid: Date, hi: Date)
    requires lo <= mid <= hi
    ensures Count(c, rule, lo, hi) == Count(c, rule, lo, mid) + Count(c, rule, mid, hi)
    decreases hi - mid
  {
    if mid < hi { CountSplit(c, rule, lo, mid, hi - 1); }
  }

  // The weekdays 1..upTo a calendar meets on.
  function WeekdaysIn(c: Calendar, upTo: nat): nat {
    if upTo == 0 then 0 else WeekdaysIn(c, upTo - 1) + if c.Meets(upTo) then 1 else 0
  }

  lemma {:induction false} WeekdayCount(c: Calendar, days: seq<int>, upTo: nat)
    requires forall i, j :: 0 <= i < j < |days| ==> days[i] < days[j]
    requires forall i :: 0 <= i < |days| ==> 1 <= days[i] <= upTo
    requires forall k :: 1 <= k <= upTo ==> (k in days <==> c.Meets(k))
    ensures WeekdaysIn(c, upTo) == |days|
    decreases upTo
  {
    if upTo > 0 {
      if upTo in days {
        var i :| 0 <= i < |days| && days[i] == upTo;
        assert days[i] <= days[|days| - 1];
        var init := days[..|days| - 1];
        forall k | 1 <= k <= upTo - 1 ensures k in init <==> c.Meets(k) {
          assert days == init + [upTo];
        }
        WeekdayCount(c, init, upTo - 1);
      } else {
        WeekdayCount(c, days, upTo - 1);
      }
    }
  }

  lemma IsoAfter(d: Date, n: nat)
    requires n < 7
    ensures var w := IsoWeekday(d);
            IsoWeekday(d + n) == if w + n <= 7 then w + n else w + n - 7
  {
  }

  // From a day of weekday w + 1, the rest of that week and the start of the next.
  lemma {:induction false} CountAcrossWeek(c: Calendar, lo: Date, n: nat)
    requires n <= 7
    ensures var w := IsoWeekday(lo) - 1;
            Count(c, Scheduled, lo, lo + n) ==
            if w + n <= 7 then WeekdaysIn(c, w + n) - WeekdaysIn(c, w)
            else WeekdaysIn(c, 7) - WeekdaysIn(c, w) + WeekdaysIn(c, w + n - 7)
  {
    if n > 0 {
      CountAcrossWeek(c, lo, n - 1);
      IsoAfter(lo, n - 1);
    }
  }

  lemma OneWeek(c: Calendar, lo: Date)
    requires Valid(c)
    ensures Count(c, Scheduled, lo, lo + 7) == |c.weekdays|
  {
    hide Count;
    CountAcrossWeek(c, lo, 7);
    WeekdayCount(c, c.weekdays, 7);
  }

  lemma NoDays(c: Calendar, lo: Date)
    ensures Count(c, Scheduled, lo, lo) == 0
  {
  }

  lemma OneMore(n: nat, each: nat)
    requires n > 0
    ensures n * each == (n - 1) * each + each
  {
  }

  // Any seven consecutive days hold one meeting per configured weekday.
  lemma {:induction false} WholeWeeks(c: Calendar, lo: Date, weeks: nat)
    requires Valid(c)
    ensures Count(c, Scheduled, lo, lo + 7 * weeks) == weeks * |c.weekdays|
    decreases weeks
  {
    hide Count, Valid;
    if weeks == 0 {
      NoDays(c, lo);
    } else {
      WholeWeeks(c, lo, weeks - 1);
      CountSplit(c, Scheduled, lo, lo + 7 * (weeks - 1), lo + 7 * weeks);
      OneWeek(c, lo + 7 * (weeks - 1));
      OneMore(weeks, |c.weekdays|);
    }
  }

  // The skips that fall on a meeting weekday inside [lo, hi).
  function SkipsIn(c: Calendar, skip: seq<Date>, lo: Date, hi: Date): nat {
    if skip == [] then 0
    else
      var s := skip[|skip| - 1];
      SkipsIn(c, skip[..|skip| - 1], lo, hi) + if lo <= s < hi && c.Meets(IsoWeekday(s)) then 1 else 0
  }

  lemma {:induction false} SkipsAtMost(c: Calendar, skip: seq<Date>, lo: Date, hi: Date)
    ensures SkipsIn(c, skip, lo, hi) <= |skip|
  {
    if skip != [] { SkipsAtMost(c, skip[..|skip| - 1], lo, hi); }
  }

  lemma {:induction false} SkipsStep(c: Calendar, skip: seq<Date>, lo: Date, hi: Date)
    requires lo <= hi && Distinct(skip)
    ensures SkipsIn(c, skip, lo, hi + 1) ==
            SkipsIn(c, skip, lo, hi) + if hi in skip && c.Meets(IsoWeekday(hi)) then 1 else 0
  {
    if skip != [] {
      var init, s := skip[..|skip| - 1], skip[|skip| - 1];
      SkipsStep(c, init, lo, hi);
      assert skip == init + [s];
      assert s !in init;
    }
  }

  lemma {:induction false} SkipsNone(c: Calendar, skip: seq<Date>, lo: Date)
    ensures SkipsIn(c, skip, lo, lo) == 0
  {
    if skip != [] { SkipsNone(c, skip[..|skip| - 1], lo); }
  }

  // Distinct skips account exactly for the scheduled meetings that are not held.
  lemma {:induction false} HeldIsScheduledLessSkips(c: Calendar, lo: Date, hi: Date)
    requires lo <= hi && Distinct(c.skip)
    ensures Count(c, Held, lo, hi) + SkipsIn(c, c.skip, lo, hi) == Count(c, Scheduled, lo, hi)
    decreases hi - lo
  {
    if lo == hi {
      SkipsNone(c, c.skip, lo);
    } else {
      HeldIsScheduledLessSkips(c, lo, hi - 1);
      SkipsStep(c, c.skip, lo, hi - 1);
    }
  }

  // ---- The closed form ----

  // time.Sub saturates, so the span a class day is computed over is at most MAX_DURATION_DAYS.
  function Elapsed(c: Calendar, d: Date): int {
    if d - c.startDate > MAX_DURATION_DAYS then MAX_DURATION_DAYS else d - c.startDate
  }

  // Scheduled meetings over the saturated span, less the skips over the true one.
  function ServedClassDay(c: Calendar, d: Date): int {
    if !c.Configured() || d < c.startDate then 0
    else
      Count(c, Scheduled, c.startDate, c.startDate + Elapsed(c, d) + 1)
      - SkipsIn(c, c.skip, c.startDate, d + 1)
  }

  /** Whole weeks, plus a ragged tail, minus the skips: what the server computes. Up to the span a
      duration can hold this is the day-by-day count, and it always fits an int32. */
  method CurrentClassDay(c: Calendar, localDate: Date) returns (count: int)
    requires Valid(c)
    ensures count == ServedClassDay(c, localDate)
    ensures localDate - c.startDate <= MAX_DURATION_DAYS ==> count == ClassDay(c, localDate)
    ensures 0 <= count <= MAX_DURATION_DAYS + 1
  {
    hide ClassDay, IsoWeekday;
    ServedClassDayExact(c, localDate);
    ServedClassDayBounds(c, localDate);
    if !c.Configured() { return 0; }
    var d := localDate;
    if d < c.startDate { return 0; }
    var total := Elapsed(c, d) + 1;
    count := (total / 7) * |c.weekdays|;
    var tailStart := c.startDate + (total / 7) * 7;
    WholeWeeks(c, c.startDate, total / 7);
    for i := 0 to total % 7
      invariant count == Count(c, Scheduled, c.startDate, tailStart + i)
    {
      if c.Meets(IsoWeekday(tailStart + i)) { count := count + 1; }
    }
    for i := 0 to |c.skip|
      invariant count == Count(c, Scheduled, c.startDate, c.startDate + total)
                         - SkipsIn(c, c.skip[..i], c.startDate, d + 1)
    {
      var s := c.skip[i];
      assert c.skip[..i + 1][..i] == c.skip[..i];
      if !(s < c.startDate) && !(s > d) && c.Meets(IsoWeekday(s)) { count := count - 1; }
    }
    assert c.skip[..|c.skip|] == c.skip;
  }

  /** The closed form agrees with the day-by-day count exactly when the span fits a duration, or no
      meeting weekday falls in the part that does not. */
  lemma ServedClassDayExact(c: Calendar, d: Date)
    requires Valid(c)
    ensures ServedClassDay(c, d) == ClassDay(c, d) <==>
            || !c.Configured()
            || d - c.startDate <= MAX_DURATION_DAYS
            || Count(c, Scheduled, c.startDate + MAX_DURATION_DAYS + 1, d + 1) == 0
  {
    if c.Configured() && c.startDate <= d {
      HeldIsScheduledLessSkips(c, c.startDate, d + 1);
      if d - c.startDate > MAX_DURATION_DAYS {
        CountSplit(c, Scheduled, c.startDate, c.startDate + MAX_DURATION_DAYS + 1, d + 1);
      }
    }
  }

  // Past the span of a duration the count stands still while later skips still come off it.
  lemma SaturatedCountFalls()
    ensures exists c, d :: Valid(c) && ServedClassDay(c, d + 1) < ServedClassDay(c, d)
  {
    var d := 1 + MAX_DURATION_DAYS + 7;
    var c := Calendar(1, [1, 2, 3, 4, 5, 6, 7], [d + 1]);
    assert c.skip[..0] == [];
    assert SkipsIn(c, [], 1, d + 1) == 0 && SkipsIn(c, [], 1, d + 2) == 0;
    assert SkipsIn(c, c.skip, 1, d + 1) == 0;
    assert c.Meets(IsoWeekday(d + 1));
    assert SkipsIn(c, c.skip, 1, d + 2) == 1;
    assert Valid(c) && ServedClassDay(c, d + 1) < ServedClassDay(c, d);
  }

  lemma {:induction false} CountAtMostDays(c: Calendar, rule: Rule, lo: Date, hi: Date)
    requires lo <= hi
    ensures Count(c, rule, lo, hi) <= hi - lo
    decreases hi - lo
  {
    if lo < hi { CountAtMostDays(c, rule, lo, hi - 1); }
  }

  lemma {:induction false} CountGrows(c: Calendar, rule: Rule, lo: Date, mid: Date, hi: Date)
    requires mid <= hi
    ensures Count(c, rule, lo, mid) <= Count(c, rule, lo, hi)
    decreases hi - mid
  {
    if mid < hi { CountGrows(c, rule, lo, mid, hi - 1); }
  }

  // Weeks enough for n meetings whatever is skipped.
  lemma AtLeastOnce(n: nat, each: nat)
    requires each > 0
    ensures n * each >= n
  {
    assert n * (each - 1) >= 0;
  }

  lemma EnoughWeeks(c: Calendar, n: nat, hi: Date)
    requires Valid(c) && c.weekdays != []
    requires c.startDate + 7 * (n + |c.skip|) <= hi
    ensures Count(c, Scheduled, c.startDate, hi) >= n + |c.skip|
    ensures Count(c, Held, c.startDate, hi) >= n
  {
    hide Count, SkipsIn;
    var weeks := n + |c.skip|;
    WholeWeeks(c, c.startDate, weeks);
    AtLeastOnce(weeks, |c.weekdays|);
    CountGrows(c, Scheduled, c.startDate, c.startDate + 7 * weeks, hi);
    HeldIsScheduledLessSkips(c, c.startDate, hi);
    SkipsAtMost(c, c.skip, c.startDate, hi);
  }

  lemma ServedClassDayBounds(c: Calendar, d: Date)
    requires Valid(c)
    ensures 0 <= ServedClassDay(c, d) <= MAX_DURATION_DAYS + 1
    ensures c.Configured() && d - c.startDate > MAX_DURATION_DAYS ==> ServedClassDay(c, d) >= MAX_RELEASE_DAY
  {
    if c.Configured() && c.startDate <= d {
      var hi := c.startDate + Elapsed(c, d) + 1;
      CountAtMostDays(c, Scheduled, c.startDate, hi);
      if d - c.startDate > MAX_DURATION_DAYS {
        EnoughWeeks(c, MAX_RELEASE_DAY + MAX_SKIP_DATES, hi);
        SkipsAtMost(c, c.skip, c.startDate, d + 1);
      } else {
        ServedClassDayExact(c, d);
      }
    }
  }

  /** From one day to the next the class day falls exactly when the next day lies past the span of a
      duration and is a skip on a meeting weekday. */
  lemma ClassDayFalls(c: Calendar, d: Date)
    requires Valid(c)
    ensures ServedClassDay(c, d + 1) < ServedClassDay(c, d) <==> SkippedPastSpan(c, d + 1)
  {
    if c.Configured() && c.startDate <= d {
      SkipsStep(c, c.skip, c.startDate, d + 1);
    } else {
      ServedClassDayBounds(c, d + 1);
    }
  }

  // A skip on a meeting weekday, too far from the start for a duration to reach.
  predicate SkippedPastSpan(c: Calendar, d: Date) {
    c.Configured() && d - c.startDate > MAX_DURATION_DAYS && d in c.skip && c.Meets(IsoWeekday(d))
  }

  // The class day does not fall anywhere in [lo, hi].
  ghost predicate NeverFalls(c: Calendar, lo: Date, hi: Date) {
    forall d, later :: lo <= d <= later <= hi ==> ServedClassDay(c, d) <= ServedClassDay(c, later)
  }

  /** Once a lesson is reached it stays reached, over any range of days, exactly when no skip on a
      meeting weekday lies in the range past the span of a duration. */
  lemma ClassDayNeverDecreases(c: Calendar, lo: Date, hi: Date)
    requires Valid(c)
    ensures NeverFalls(c, lo, hi) <==> forall s :: lo < s <= hi ==> !SkippedPastSpan(c, s)
  {
    if NeverFalls(c, lo, hi) {
      forall s | lo < s <= hi ensures !SkippedPastSpan(c, s) {
        ClassDayFalls(c, s - 1);
        assert ServedClassDay(c, s - 1) <= ServedClassDay(c, s);
      }
    }
    if forall s :: lo < s <= hi ==> !SkippedPastSpan(c, s) {
      forall d, later | lo <= d <= later <= hi ensures ServedClassDay(c, d) <= ServedClassDay(c, later) {
        NoFallBetween(c, d, later);
      }
    }
  }

  lemma {:induction false} NoFallBetween(c: Calendar, d: Date, later: Date)
    requires Valid(c) && d <= later && forall s :: d < s <= later ==> !SkippedPastSpan(c, s)
    ensures ServedClassDay(c, d) <= ServedClassDay(c, later)
    decreases later - d
  {
    if d < later {
      NoFallBetween(c, d, later - 1);
      ClassDayFalls(c, later - 1);
    }
  }

  /** Within the span of a duration nothing falls. */
  lemma NeverFallsWithinSpan(c: Calendar, lo: Date, hi: Date)
    requires Valid(c) && hi - c.startDate <= MAX_DURATION_DAYS
    ensures NeverFalls(c, lo, hi)
  {
    ClassDayNeverDecreases(c, lo, hi);
  }

  // ---- The inverse ----

  // d is the date lesson n falls on.
  ghost predicate IsMeeting(c: Calendar, n: int, d: Date) {
    && c.startDate <= d < c.startDate + 7 * (n + |c.skip|)
    && On(c, Held, d) && Count(c, Held, c.startDate, d + 1) == n
  }

  /** The dates of lessons 1..n, capped at MAX_RELEASE_DAY: the bounded walk always finds all of
      them. */
  method MeetingDates(c: Calendar, n: int) returns (dates: seq<Date>)
    requires Valid(c)
    ensures |dates| == if !c.Configured() || n <= 0 then 0 else if n < MAX_RELEASE_DAY then n else MAX_RELEASE_DAY
    ensures forall k :: 0 <= k < |dates| ==> IsMeeting(c, k + 1, dates[k])
    ensures forall j, k :: 0 <= j < k < |dates| ==> dates[j] < dates[k]
  {
    dates := [];
    if !c.Configured() || n <= 0 { return; }
    var m := if n < MAX_RELEASE_DAY then n else MAX_RELEASE_DAY;
    var limit := 7 * (m + |c.skip|);
    EnoughWeeks(c, m, c.startDate + limit);
    var i := 0;
    while i < limit && |dates| < m
      invariant 0 <= i <= limit && |dates| <= m
      invariant |dates| == Count(c, Held, c.startDate, c.startDate + i)
      invariant forall k :: 0 <= k < |dates| ==>
                  c.startDate <= dates[k] < c.startDate + i && On(c, Held, dates[k])
                  && Count(c, Held, c.startDate, dates[k] + 1) == k + 1
      invariant forall j, k :: 0 <= j < k < |dates| ==> dates[j] < dates[k]
      decreases limit - i
    {
      var day := c.startDate + i;
      if c.Meets(IsoWeekday(day)) && !c.Skipped(day) { dates := dates + [day]; }
      i := i + 1;
    }
    forall k | 0 <= k < |dates| ensures dates[k] < c.startDate + 7 * (k + 1 + |c.skip|) {
      // By then the lesson has been reached, so its date cannot lie further on.
      EnoughWeeks(c, k + 1, c.startDate + 7 * (k + 1 + |c.skip|));
      if dates[k] >= c.startDate + 7 * (k + 1 + |c.skip|) {
        CountGrows(c, Held, c.startDate, c.startDate + 7 * (k + 1 + |c.skip|), dates[k]);
      }
    }
  }

  /** The calendar and its inverse: lesson n is open on d exactly when its meeting is on or before
      d, for every date, including those past the span of a duration. */
  lemma MeetingIsInverse(c: Calendar, n: int, m: Date, d: Date)
    requires Valid(c) && c.Configured() && 1 <= n <= MAX_RELEASE_DAY && IsMeeting(c, n, m)
    ensures ServedClassDay(c, d) >= n <==> m <= d
  {
    ServedClassDayBounds(c, d);
    if d - c.startDate <= MAX_DURATION_DAYS {
      ServedClassDayExact(c, d);
      if m <= d {
        CountGrows(c, Held, c.startDate, m + 1, d + 1);
      } else if c.startDate <= d {
        CountGrows(c, Held, c.startDate, d + 1, m);
      }
    }
  }

  /** The date of lesson n, and whether there is one. */
  method MeetingDate(c: Calendar, n: int) returns (r: Option<Date>)
    requires Valid(c)
    ensures r.Some? <==> c.Configured() && 1 <= n <= MAX_RELEASE_DAY
    ensures r.Some? ==> IsMeeting(c, n, r.value)
    ensures r.Some? ==> forall d :: ServedClassDay(c, d) >= n <==> r.value <= d
  {
    if n <= 0 || n > MAX_RELEASE_DAY { return None; }
    var dates := MeetingDates(c, n);
    if |dates| < n { return None; }
    r := Some(dates[n - 1]);
    forall d ensures ServedClassDay(c, d) >= n <==> r.value <= d {
      MeetingIsInverse(c, n, r.value, d);
    }
  }

  // What the study queries take as current_class_day.
  function Gate(c: Calendar, classDay: int): int {
    if !c.Configured() then RELEASE_GATE_OFF else classDay
  }

  /** The release gate: an unpaced deck admits every lesson there can be; a paced one admits lesson 0
      always and lesson n from its meeting on. */
  lemma GateAdmits(c: Calendar, releaseDay: int, d: Date, m: Date)
    requires Valid(c) && 0 <= releaseDay <= MAX_RELEASE_DAY
    requires c.Configured() && releaseDay > 0 ==> IsMeeting(c, releaseDay, m)
    ensures releaseDay <= Gate(c, ServedClassDay(c, d)) <==>
            !c.Configured() || releaseDay == 0 || m <= d
  {
    ServedClassDayBounds(c, d);
    if c.Configured() && releaseDay > 0 { MeetingIsInverse(c, releaseDay, m, d); }
  }
}
