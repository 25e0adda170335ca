/** Naive local date-times at minute resolution, as Python's `datetime` has them. */
module Calendar {

  /** `datetime(year, month, day, hour, minute)` */
  datatype Minute = Minute(year: nat, month: nat, day: nat, hour: nat, minute: nat)

  predicate IsLeap(year: int) {
    year % 4 == 0 && (year % 100 != 0 || year % 400 == 0)
  }

  function DaysInMonth(year: int, month: int): (d: nat)
    ensures 28 <= d <= 31
  {
    if month == 2 then if IsLeap(year) then 29 else 28
    else if month in {4, 6, 9, 11} then 30
    else 31
  }

  predicate ValidMinute(t: Minute) {
    && 1 <= t.year
    && 1 <= t.month <= 12
    && 1 <= t.day <= DaysInMonth(t.year, t.month)
    && t.hour < 24
    && t.minute < 60
  }

  /** `datetime.min` */
  const FIRST := Minute(1, 1, 1, 0, 0)

  // ---- the calendar as a sequence of minutes ----

  /** Midnight at the start of the next month. */
  function NextMonth(t: Minute): (u: Minute)
    requires ValidMinute(t)
    ensures ValidMinute(u)
  {
    if t.month == 12 then Minute(t.year + 1, 1, 1, 0, 0) else Minute(t.year, t.month + 1, 1, 0, 0)
  }

  /** Midnight plus one day. */
  function NextDay(t: Minute): (u: Minute)
    requires ValidMinute(t)
    ensures ValidMinute(u)
  {
    if t.day < DaysInMonth(t.year, t.month) then Minute(t.year, t.month, t.day + 1, 0, 0) else NextMonth(t)
  }

  /** The start of the next hour. */
  function NextHour(t: Minute): (u: Minute)
    requires ValidMinute(t)
    ensures ValidMinute(u)
  {
    if t.hour < 23 then t.(hour := t.hour + 1, minute := 0) else NextDay(t)
  }

  /** One minute later. */
  function NextMinute(t: Minute): (u: Minute)
    requires ValidMinute(t)
    ensures ValidMinute(u)
  {
    if t.minute < 59 then t.(minute := t.minute + 1) else NextHour(t)
  }

  /** The same time of day, `n` days on. */
  function PlusDays(t: Minute, n: nat): (u: Minute)
    requires ValidMinute(t)
    ensures ValidMinute(u)
    decreases n
  {
    if n == 0 then t else PlusDays(NextDay(t).(hour := t.hour, minute := t.minute), n - 1)
  }

  /** The minute that comes `n` minutes after the first one. */
  function At(n: nat): (t: Minute)
    ensures ValidMinute(t)
  {
    if n == 0 then FIRST else NextMinute(At(n - 1))
  }

  // ---- the calendar in closed form ----

  function DaysBeforeYear(year: int): int {
    var y := year - 1;
    365 * y + y / 4 - y / 100 + y / 400
  }

  function DaysBeforeMonth(year: int, month: nat): nat {
    if month <= 1 then 0 else DaysBeforeMonth(year, month - 1) + DaysInMonth(year, month - 1)
  }

  /** `date.toordinal()`: 1 January of year 1 is day 1 of the proleptic Gregorian calendar. */
  function Ordinal(t: Minute): int {
    DaysBeforeYear(t.year) + DaysBeforeMonth(t.year, t.month) + t.day
  }

  /** `date.weekday()`: Monday is 0. */
  function Weekday(t: Minute): int {
    (Ordinal(t) + 6) % 7
  }

  /** How many minutes lie between the first one and this one. */
  function Number(t: Minute): int {
    ((Ordinal(t) - 1) * 24 + t.hour) * 60 + t.minute
  }

  /** A Sunday, and how many days have passed since it. */
  const SUNDAY := Minute(2023, 12, 31, 0, 0)

  function DaysSinceSunday(t: Minute): int {
    (Number(t) - Number(SUNDAY)) / 1440
  }

  // ---- both views agree ----

  lemma Fourths(y: int)
    ensures y / 4 - (y - 1) / 4 == if y % 4 == 0 then 1 else 0
  {
    assert y == 4 * (y / 4) + y % 4 && y - 1 == 4 * ((y - 1) / 4) + (y - 1) % 4;
  }

  lemma Hundredths(y: int)
    ensures y / 100 - (y - 1) / 100 == if y % 100 == 0 then 1 else 0
  {
    assert y == 100 * (y / 100) + y % 100 && y - 1 == 100 * ((y - 1) / 100) + (y - 1) % 100;
  }

  lemma FourHundredths(y: int)
    ensures y / 400 - (y - 1) / 400 == if y % 400 == 0 then 1 else 0
  {
    assert y == 400 * (y / 400) + y % 400 && y - 1 == 400 * ((y - 1) / 400) + (y - 1) % 400;
  }

  lemma WholeCenturies(y: int)
    ensures y % 400 == 0 ==> y % 100 == 0
    ensures y % 100 == 0 ==> y % 4 == 0
  {
  }

  lemma YearLength(year: int)
    ensures DaysBeforeYear(year + 1) == DaysBeforeYear(year) + if IsLeap(year) then 366 else 365
  {
    Fourths(year);
    Hundredths(year);
    FourHundredths(year);
    WholeCenturies(year);
  }

  lemma DaysBeforeDecember(year: int)
    ensures DaysBeforeMonth(year, 12) == if IsLeap(year) then 335 else 334
  {
    var feb := DaysInMonth(year, 2);
    assert DaysBeforeMonth(year, 2) == 31;
    assert DaysBeforeMonth(year, 3) == 31 + feb;
    assert DaysBeforeMonth(year, 4) == 62 + feb;
    assert DaysBeforeMonth(year, 5) == 92 + feb;
    assert DaysBeforeMonth(year, 6) == 123 + feb;
    assert DaysBeforeMonth(year, 7) == 153 + feb;
    assert DaysBeforeMonth(year, 8) == 184 + feb;
    assert DaysBeforeMonth(year, 9) == 215 + feb;
    assert DaysBeforeMonth(year, 10) == 245 + feb;
    assert DaysBeforeMonth(year, 11) == 276 + feb;
  }

  lemma NextDayOrdinal(t: Minute)
    requires ValidMinute(t)
    ensures Ordinal(NextDay(t)) == Ordinal(t) + 1
  {
    if t.day == DaysInMonth(t.year, t.month) && t.month == 12 {
      YearLength(t.year);
      DaysBeforeDecember(t.year);
    }
  }

  lemma NextMinuteNumber(t: Minute)
    requires ValidMinute(t)
    ensures Number(NextMinute(t)) == Number(t) + 1
  {
    if t.minute == 59 && t.hour == 23 {
      NextDayOrdinal(t);
    }
  }

  /** 1 January 2024 is a Monday, each day has the next weekday, and the time of day has no say. */
  lemma WeekdaysGoRound(t: Minute)
    requires ValidMinute(t)
    ensures Weekday(Minute(2024, 1, 1, 0, 0)) == 0
    ensures Weekday(NextDay(t)) == (Weekday(t) + 1) % 7
    ensures Weekday(t.(hour := 0, minute := 0)) == Weekday(t)
  {
    hide Ordinal, NextDay;
    NextDayOrdinal(t);
    NewYear2024();
    SameDay(t);
    NextOfSeven(Ordinal(t) + 6);
  }

  lemma NextOfSeven(n: int)
    ensures (n + 1) % 7 == (n % 7 + 1) % 7
  {
  }

  lemma NewYear2024()
    ensures Ordinal(Minute(2024, 1, 1, 0, 0)) == 7 * 105555 + 1
  {
    assert DaysBeforeYear(2024) == 738885;
  }

  lemma SameDay(t: Minute)
    ensures Ordinal(t.(hour := 0, minute := 0)) == Ordinal(t)
  {
    hide DaysBeforeYear, DaysBeforeMonth;
  }

  /** So the weekday is a matter of counting days from a Sunday, Sunday being 0 here. */
  lemma WeekdayIsCounted(t: Minute)
    requires ValidMinute(t)
    ensures (Weekday(t) + 1) % 7 == DaysSinceSunday(t) % 7
    ensures Number(t) == Number(SUNDAY) + 1440 * DaysSinceSunday(t) + 60 * t.hour + t.minute
  {
    SundayOrdinal();
    hide Ordinal;
  }

  lemma SundayOrdinal()
    ensures Ordinal(SUNDAY) == 7 * 105555 && Number(SUNDAY) == (Ordinal(SUNDAY) - 1) * 1440
  {
    DaysBeforeDecember(2023);
    assert DaysBeforeYear(2023) == 738520;
  }

  lemma {:induction false} NumberOfAt(n: nat)
    ensures Number(At(n)) == n
  {
    if n > 0 {
      NumberOfAt(n - 1);
      NextMinuteNumber(At(n - 1));
    }
  }

  lemma {:induction false} YearsGrow(a: int, b: int)
    requires a <= b
    ensures DaysBeforeYear(b) >= DaysBeforeYear(a) + 365 * (b - a)
    decreases b - a
  {
    if a < b {
      YearsGrow(a, b - 1);
      YearLength(b - 1);
    }
  }

  lemma {:induction false} MonthsGrow(year: int, a: nat, b: nat)
    requires 1 <= a < b
    ensures DaysBeforeMonth(year, b) >= DaysBeforeMonth(year, a) + DaysInMonth(year, a)
  {
    if a < b - 1 {
      MonthsGrow(year, a, b - 1);
    }
  }

  /** Python compares date-times field by field. */
  predicate AtMost(t: Minute, u: Minute) {
    if t.year != u.year then t.year < u.year
    else if t.month != u.month then t.month < u.month
    else if t.day != u.day then t.day < u.day
    else if t.hour != u.hour then t.hour < u.hour
    else t.minute <= u.minute
  }

  lemma EarlierDate(t: Minute, u: Minute)
    requires ValidMinute(t) && ValidMinute(u)
    requires t.year < u.year || (t.year == u.year && t.month < u.month)
    ensures Ordinal(t) < Ordinal(u)
  {
    if t.year < u.year {
      YearsGrow(t.year + 1, u.year);
      YearLength(t.year);
      DaysBeforeDecember(t.year);
      if t.month < 12 {
        MonthsGrow(t.year, t.month, 12);
      }
    } else {
      MonthsGrow(t.year, t.month, u.month);
    }
  }

  /** The field-by-field order is the order of the minutes. */
  lemma OrderIsNumeric(t: Minute, u: Minute)
    requires ValidMinute(t) && ValidMinute(u)
    ensures AtMost(t, u) <==> Number(t) <= Number(u)
    ensures t == u <==> Number(t) == Number(u)
  {
    if t.year < u.year || (t.year == u.year && t.month < u.month) {
      EarlierDate(t, u);
    } else if u.year < t.year || (t.year == u.year && u.month < t.month) {
      EarlierDate(u, t);
    }
  }

  lemma NumberIsNatural(t: Minute)
    requires ValidMinute(t)
    ensures Number(t) >= 0
  {
    OrderIsNumeric(FIRST, t);
    assert Number(FIRST) == 0;
  }

  /** Every valid date-time is the minute its number says. */
  lemma AtOfNumber(t: Minute)
    requires ValidMinute(t)
    ensures Number(t) >= 0 && At(Number(t)) == t
  {
    NumberIsNatural(t);
    NumberOfAt(Number(t));
    OrderIsNumeric(At(Number(t)), t);
  }

  lemma {:induction false} PlusDaysNumber(t: Minute, n: nat)
    requires ValidMinute(t)
    ensures Number(PlusDays(t, n)) == Number(t) + 1440 * n
    decreases n
  {
    if n > 0 {
      NextDayOrdinal(t);
      PlusDaysNumber(NextDay(t).(hour := t.hour, minute := t.minute), n - 1);
    }
  }

  // ---- what a skip passes over ----

  /** Between a minute and the start of the next month lie minutes of the same month only. */
  lemma MonthSkip(t: Minute, u: Minute)
    requires ValidMinute(t) && ValidMinute(u)
    requires Number(t) <= Number(u) < Number(NextMonth(t))
    ensures u.year == t.year && u.month == t.month
  {
    OrderIsNumeric(t, u);
    OrderIsNumeric(NextMonth(t), u);
  }

  lemma DaySkip(t: Minute, u: Minute)
    requires ValidMinute(t) && ValidMinute(u)
    requires Number(t) <= Number(u) < Number(NextDay(t))
    ensures u == t.(hour := u.hour, minute := u.minute)
  {
    OrderIsNumeric(t, u);
    OrderIsNumeric(NextDay(t), u);
  }

  lemma HourSkip(t: Minute, u: Minute)
    requires ValidMinute(t) && ValidMinute(u)
    requires Number(t) <= Number(u) < Number(NextHour(t))
    ensures u == t.(minute := u.minute)
  {
    OrderIsNumeric(t, u);
    OrderIsNumeric(NextHour(t), u);
  }
}
