/** When a cron expression fires (schedules.py, `_cron_day_matches` and `next_fire`). */
module CronFire {
  import opened Wrappers
  import opened Calendar

  /** A parsed expression: the values of its five fields, and whether the two day fields were
      anything other than a bare star. */
  datatype Cron = Cron(minutes: set<nat>, hours: set<nat>, days: set<nat>, months: set<nat>, weekdays: set<nat>,
                       dayRestricted: bool, weekdayRestricted: bool)

  const SEARCH_DAYS: nat := 366

  predicate DayMatches(c: Cron, t: Minute) {
    var dom := t.day in c.days;
    var dow := (Weekday(t) + 1) % 7 in c.weekdays;
    if c.dayRestricted && c.weekdayRestricted then dom || dow else dom && dow
  }

  predicate Matches(c: Cron, t: Minute) {
    t.month in c.months && DayMatches(c, t) && t.hour in c.hours && t.minute in c.minutes
  }

  /** The minute with this number is one the expression fires at. */
  predicate Fires(c: Cron, n: nat) {
    Matches(c, At(n))
  }

  /** The naive search: minute by minute through `from .. until`. */
  function FirstFire(c: Cron, from: nat, until: nat): Option<nat>
    decreases until - from
  {
    if from >= until then None
    else if Fires(c, from) then Some(from)
    else FirstFire(c, from + 1, until)
  }

  /** The first firing after minute `after`, within the search window. */
  function NextFireNumber(c: Cron, after: nat): Option<nat> {
    FirstFire(c, after + 1, after + 1 + SEARCH_DAYS * 1440 + 1)
  }

  lemma {:induction false} FirstFireIsLeast(c: Cron, from: nat, until: nat)
    ensures match FirstFire(c, from, until)
            case Some(at) => from <= at < until && Fires(c, at) && forall n :: from <= n < at ==> !Fires(c, n)
            case None => forall n :: from <= n < until ==> !Fires(c, n)
    decreases until - from
  {
    if from < until && !Fires(c, from) {
      FirstFireIsLeast(c, from + 1, until);
    }
  }

  lemma {:induction false} FirstFireFrom(c: Cron, from: nat, later: nat, until: nat)
    requires from <= later
    requires forall n :: from <= n < later ==> !Fires(c, n)
    ensures later <= until ==> FirstFire(c, from, until) == FirstFire(c, later, until)
    ensures until <= later ==> FirstFire(c, from, until) == None
    decreases later - from
  {
    if from < later && from < until {
      FirstFireFrom(c, from + 1, later, until);
    }
  }

  // ---- the three skips pass over no firing ----

  lemma MonthSkipIsSafe(c: Cron, t: Minute)
    requires ValidMinute(t) && t.month !in c.months
    ensures Number(t) < Number(NextMonth(t))
    ensures forall n: nat :: Number(t) <= n < Number(NextMonth(t)) ==> !Fires(c, n)
  {
    OrderIsNumeric(t, NextMonth(t));
    OrderIsNumeric(NextMonth(t), t);
    forall n: nat | Number(t) <= n < Number(NextMonth(t)) ensures !Fires(c, n) {
      NumberOfAt(n);
      MonthSkip(t, At(n));
    }
  }

  lemma DaySkipIsSafe(c: Cron, t: Minute)
    requires ValidMinute(t) && !DayMatches(c, t)
    ensures Number(t) < Number(NextDay(t))
    ensures forall n: nat :: Number(t) <= n < Number(NextDay(t)) ==> !Fires(c, n)
  {
    OrderIsNumeric(t, NextDay(t));
    OrderIsNumeric(NextDay(t), t);
    forall n: nat | Number(t) <= n < Number(NextDay(t)) ensures !Fires(c, n) {
      NumberOfAt(n);
      DaySkip(t, At(n));
    }
  }

  lemma HourSkipIsSafe(c: Cron, t: Minute)
    requires ValidMinute(t) && t.hour !in c.hours
    ensures Number(t) < Number(NextHour(t))
    ensures forall n: nat :: Number(t) <= n < Number(NextHour(t)) ==> !Fires(c, n)
  {
    OrderIsNumeric(t, NextHour(t));
    OrderIsNumeric(NextHour(t), t);
    forall n: nat | Number(t) <= n < Number(NextHour(t)) ensures !Fires(c, n) {
      NumberOfAt(n);
      HourSkip(t, At(n));
    }
  }

  /** `next_fire`: the seconds of `after` play no part. The search with its month, day and hour
      skips finds what the naive search finds, and gives up exactly when that finds nothing. */
  method NextFire(c: Cron, after: Minute) returns (r: Option<Minute>)
    requires ValidMinute(after)
    ensures Number(after) >= 0
    ensures match r
            case Some(t) => ValidMinute(t) && NextFireNumber(c, Number(after)) == Some(Number(t))
                            && Number(after) < Number(t) <= Number(after) + 366 * 1440 + 1
            case None => NextFireNumber(c, Number(after)) == None
  {
    hide Matches, DayMatches, Number, At, NextDay, NextHour, NextMonth, PlusDays, AtMost, Fires, FirstFire;
    var t := NextMinute(after);
    NextMinuteNumber(after);
    AtOfNumber(after);
    var limit := PlusDays(t, SEARCH_DAYS);
    PlusDaysNumber(t, SEARCH_DAYS);
    ghost var first, last := Number(t), Number(limit);
    while AtMost(t, limit)
      invariant ValidMinute(t) && first <= Number(t)
      invariant forall n: nat :: first <= n < Number(t) ==> !Fires(c, n)
      decreases last + 1 - Number(t)
    {
      OrderIsNumeric(t, limit);
      if t.month !in c.months {
        MonthSkipIsSafe(c, t);
        t := NextMonth(t);
        continue;
      }
      if !DayMatches(c, t) {
        DaySkipIsSafe(c, t);
        t := NextDay(t);
        continue;
      }
      if t.hour !in c.hours {
        HourSkipIsSafe(c, t);
        t := NextHour(t);
        continue;
      }
      FireAt(c, t);
      if t.minute !in c.minutes {
        NextMinuteNumber(t);
        t := NextMinute(t);
        continue;
      }
      FirstFireFrom(c, first, Number(t), last + 1);
      FirstFireHere(c, Number(t), last + 1);
      return Some(t);
    }
    OrderIsNumeric(t, limit);
    FirstFireFrom(c, first, Number(t), last + 1);
    return None;
  }

  lemma FireAt(c: Cron, t: Minute)
    requires ValidMinute(t) && t.month in c.months && DayMatches(c, t) && t.hour in c.hours
    ensures Number(t) >= 0
    ensures Fires(c, Number(t)) <==> t.minute in c.minutes
  {
    AtOfNumber(t);
  }

  lemma FirstFireHere(c: Cron, n: nat, until: nat)
    requires n < until && Fires(c, n)
    ensures FirstFire(c, n, until) == Some(n)
  {
  }

  // ---- one day a week ----

  /** Only the weekday is restricted, to `d`. */
  ghost predicate Weekly(c: Cron, d: nat) {
    && !c.dayRestricted && c.weekdayRestricted && c.weekdays == {d}
    && (forall i :: 1 <= i <= 31 ==> i in c.days) && (forall i :: 1 <= i <= 12 ==> i in c.months)
  }

  /** `d` days and some time of day after some Sunday. */
  ghost predicate OnWeekday(c: Cron, d: nat, n: nat, weeks: int, hour: nat, minute: nat) {
    && hour in c.hours && hour < 24 && minute in c.minutes && minute < 60
    && n == Number(SUNDAY) + 1440 * (7 * weeks + d) + 60 * hour + minute
  }

  lemma TimeOfDay(t: Minute)
    requires ValidMinute(t)
    ensures t.hour < 24 && t.minute < 60
  {
  }

  lemma WeeklyMatches(c: Cron, d: nat, t: Minute)
    requires Weekly(c, d) && ValidMinute(t)
    ensures Matches(c, t) <==> DaysSinceSunday(t) % 7 == d && t.hour in c.hours && t.minute in c.minutes
  {
    hide Number, Weekday, DaysSinceSunday;
    WeekdayIsCounted(t);
  }

  lemma OnItsDay(c: Cron, d: nat, t: Minute)
    requires ValidMinute(t) && DaysSinceSunday(t) % 7 == d && t.hour in c.hours && t.minute in c.minutes
    ensures OnWeekday(c, d, Number(t), DaysSinceSunday(t) / 7, t.hour, t.minute)
  {
    TimeOfDay(t);
    WeekdayIsCounted(t);
    hide Number, DaysSinceSunday, ValidMinute;
    assert DaysSinceSunday(t) == 7 * (DaysSinceSunday(t) / 7) + DaysSinceSunday(t) % 7;
  }

  lemma DayOf(c: Cron, d: nat, t: Minute, weeks: int, hour: nat, minute: nat)
    requires ValidMinute(t) && d < 7 && OnWeekday(c, d, Number(t), weeks, hour, minute)
    ensures DaysSinceSunday(t) % 7 == d && t.hour == hour && t.minute == minute
  {
    TimeOfDay(t);
    WeekdayIsCounted(t);
    hide Number, DaysSinceSunday, ValidMinute;
    SameTime(DaysSinceSunday(t), 7 * weeks + d, 60 * t.hour + t.minute, 60 * hour + minute);
    WholeWeeks(weeks, d);
  }

  lemma WholeWeeks(weeks: int, d: nat)
    requires d < 7
    ensures (7 * weeks + d) % 7 == d
  {
  }

  /** It fires exactly a whole number of weeks and `d` days after that Sunday, at its times of day. */
  lemma FiresWeekly(c: Cron, d: nat, n: nat)
    requires Weekly(c, d) && d < 7
    ensures Fires(c, n) <==> exists weeks, hour: nat, minute: nat :: OnWeekday(c, d, n, weeks, hour, minute)
  {
    hide Number, Weekday, At, Matches, DaysSinceSunday, Weekly, ValidMinute, OnWeekday;
    var t := At(n);
    NumberOfAt(n);
    WeeklyMatches(c, d, t);
    if Matches(c, t) {
      OnItsDay(c, d, t);
    }
    if weeks, hour: nat, minute: nat :| OnWeekday(c, d, n, weeks, hour, minute) {
      DayOf(c, d, t, weeks, hour, minute);
      TimesHold(c, d, n, weeks, hour, minute);
    }
  }

  lemma TimesHold(c: Cron, d: nat, n: nat, weeks: int, hour: nat, minute: nat)
    requires OnWeekday(c, d, n, weeks, hour, minute)
    ensures hour in c.hours && minute in c.minutes
  {
    hide Number;
  }

  lemma SameTime(a: int, b: int, x: int, y: int)
    requires 1440 * a + x == 1440 * b + y && 0 <= x < 1440 && 0 <= y < 1440
    ensures a == b && x == y
  {
  }

  /** At one time of day: the next firing is within a week, on that day and at that time. */
  lemma OnceAWeek(c: Cron, d: nat, hour: nat, minute: nat, after: nat)
    requires Weekly(c, d) && d < 7 && c.hours == {hour} && c.minutes == {minute} && hour < 24 && minute < 60
    ensures var at := NextFireNumber(c, after);
            && at.Some? && after < at.value <= after + 7 * 1440
            && (at.value - Number(SUNDAY) - 1440 * d - 60 * hour - minute) % (7 * 1440) == 0
  {
    hide Number, FirstFire, Fires, Weekly;
    var offset := Number(SUNDAY) + 1440 * d + 60 * hour + minute;
    var weeks := (after - offset) / 10080 + 1;
    var n := offset + 10080 * weeks;
    assert after < n <= after + 10080;
    assert OnWeekday(c, d, n, weeks, hour, minute);
    FiresWeekly(c, d, n);
    FirstFireIsLeast(c, after + 1, after + 1 + SEARCH_DAYS * 1440 + 1);
    var at := NextFireNumber(c, after).value;
    FiresWeekly(c, d, at);
    var w, h: nat, m: nat :| OnWeekday(c, d, at, w, h, m);
    assert at - offset == 10080 * w;
  }

  // ---- what the window leaves out ----

  /** The same date and time in another year. */
  function InYear(year: nat, month: nat, day: nat, hour: nat, minute: nat): Minute {
    Minute(year, month, day, hour, minute)
  }

  lemma OneYearLater(year: nat, month: nat, day: nat, hour: nat, minute: nat)
    requires ValidMinute(InYear(year, month, day, hour, minute))
    requires ValidMinute(InYear(year + 1, month, day, hour, minute))
    ensures var n := Number(InYear(year, month, day, hour, minute));
            var m := Number(InYear(year + 1, month, day, hour, minute));
            n + 365 * 1440 <= m <= n + 366 * 1440
  {
    MonthsShift(year, month);
    YearLength(year);
    FewLeapYears(year);
    hide DaysBeforeYear, DaysBeforeMonth, DaysInMonth, IsLeap;
  }

  lemma FewLeapYears(year: int)
    ensures !(IsLeap(year) && IsLeap(year + 1))
  {
  }

  lemma {:induction false} MonthsShift(year: nat, month: nat)
    ensures DaysBeforeMonth(year + 1, month) - DaysBeforeMonth(year, month)
            == if month <= 2 then 0 else DaysInMonth(year + 1, 2) - DaysInMonth(year, 2)
    ensures DaysInMonth(year, 2) == if IsLeap(year) then 29 else 28
    ensures DaysInMonth(year + 1, 2) == if IsLeap(year + 1) then 29 else 28
  {
    if month > 1 {
      MonthsShift(year, month - 1);
    }
  }

  lemma WithinYear(t: Minute)
    requires ValidMinute(t)
    ensures var first := Minute(t.year, 1, 1, 0, 0);
            Number(first) <= Number(t) < Number(first) + 366 * 1440
  {
    OrderIsNumeric(Minute(t.year, 1, 1, 0, 0), t);
    OrderIsNumeric(Minute(t.year + 1, 1, 1, 0, 0), t);
    YearLength(t.year);
    hide DaysBeforeYear, IsLeap;
  }

  /** Whatever fires every year on one date, at one time, fires in the window. */
  lemma YearlyIsReached(c: Cron, after: Minute, month: nat, day: nat, hour: nat, minute: nat)
    requires ValidMinute(after)
    requires forall year | year >= 1 :: ValidMinute(InYear(year, month, day, hour, minute))
                                        && Matches(c, InYear(year, month, day, hour, minute))
    ensures Number(after) >= 0 && NextFireNumber(c, Number(after)).Some?
  {
    hide Matches, Number, At, FirstFire, ValidMinute;
    var here, next := InYear(after.year, month, day, hour, minute), InYear(after.year + 1, month, day, hour, minute);
    YearsHold(after);
    assert ValidMinute(here) && ValidMinute(next);
    OneYearLater(after.year, month, day, hour, minute);
    WithinYear(after);
    WithinYear(here);
    OrderIsNumeric(next, after);
    LaterYear(next, after);
    AtOfNumber(after);
    var t := if Number(here) > Number(after) then here else next;
    AtOfNumber(t);
    assert Fires(c, Number(t));
    FirstFireIsLeast(c, Number(after) + 1, Number(after) + 1 + SEARCH_DAYS * 1440 + 1);
  }

  lemma YearsHold(t: Minute)
    requires ValidMinute(t)
    ensures t.year >= 1
  {
  }

  lemma LaterYear(t: Minute, u: Minute)
    requires t.year > u.year
    ensures !AtMost(t, u)
  {
  }

  /** The minutes of every 29 February. */
  const LEAP_DAY := Cron({0}, {0}, {29}, {2}, {0, 1, 2, 3, 4, 5, 6}, true, false)

  const NEW_YEAR_2021 := Minute(2021, 1, 1, 0, 0)
  const NEW_YEAR_2024 := Minute(2024, 1, 1, 0, 0)
  const LEAP_DAY_2024 := Minute(2024, 2, 29, 0, 0)

  lemma ThreeYears()
    ensures ValidMinute(NEW_YEAR_2021) && ValidMinute(NEW_YEAR_2024) && ValidMinute(LEAP_DAY_2024)
    ensures Number(NEW_YEAR_2021) + 1 + SEARCH_DAYS * 1440 + 1 <= Number(NEW_YEAR_2024)
  {
  }

  lemma NoLeapDayBefore2024(t: Minute)
    requires ValidMinute(t) && ValidMinute(NEW_YEAR_2021) && ValidMinute(NEW_YEAR_2024)
    requires Number(NEW_YEAR_2021) <= Number(t) < Number(NEW_YEAR_2024)
    ensures !Matches(LEAP_DAY, t)
  {
    hide Number, Weekday;
    OrderIsNumeric(NEW_YEAR_2021, t);
    OrderIsNumeric(NEW_YEAR_2024, t);
    assert t.year in {2021, 2022, 2023};
    if t.month == 2 {
      assert t.day < 29;
    }
  }

  /** An expression whose dates exist can still have no firing in the window. */
  lemma LeapDayIsTooFar()
    ensures ValidMinute(NEW_YEAR_2021) && Number(NEW_YEAR_2021) >= 0 && Number(LEAP_DAY_2024) >= 0
    ensures NextFireNumber(LEAP_DAY, Number(NEW_YEAR_2021)) == None
    ensures Fires(LEAP_DAY, Number(LEAP_DAY_2024))
  {
    hide FirstFire, At, Number, Matches;
    ThreeYears();
    AtOfNumber(NEW_YEAR_2021);
    AtOfNumber(LEAP_DAY_2024);
    var from, until := Number(NEW_YEAR_2021) + 1, Number(NEW_YEAR_2021) + 1 + SEARCH_DAYS * 1440 + 1;
    forall n: nat | from <= n < until ensures !Fires(LEAP_DAY, n) {
      NumberOfAt(n);
      NoLeapDayBefore2024(At(n));
    }
    FirstFireIsLeast(LEAP_DAY, from, until);
    LeapDayFires();
  }

  lemma LeapDayFires()
    requires ValidMinute(LEAP_DAY_2024)
    ensures Matches(LEAP_DAY, LEAP_DAY_2024)
  {
  }
}
