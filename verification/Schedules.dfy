/** When a schedule row is due, and what a history of polls starts (schedules.py). Times are
    whole microseconds since the epoch, local time being the clock's own. */
module Schedules {
  import opened Wrappers
  import opened Text
  import opened Calendar
  import opened CronFire
  import opened CronText

  const TICKS_PER_MINUTE: nat := 60_000_000

  /** 15 minutes */
  const MIN_INTERVAL: nat := 15 * TICKS_PER_MINUTE

  /** The number of 1 January 1970, 00:00. */
  const EPOCH: nat := 719162 * 1440

  /** A row of the table. A row with an expression ignores its interval. */
  datatype Schedule = Schedule(id: string, project: string, prompt: string, every: Option<nat>, cron: Option<string>,
                               enabled: bool, last: Option<nat>, lastTask: Option<string>, created: nat)

  predicate RowOk(row: Schedule) {
    && (row.every.None? ==> row.cron.Some?)
    && (row.every.Some? ==> row.every.value >= MIN_INTERVAL)
    && (row.cron.Some? ==> ValidateCron(row.cron.value) == Ok(row.cron.value))
  }

  /** The moment a row's next run is counted from. */
  function Reference(row: Schedule): nat {
    if row.last.Some? then row.last.value else row.created
  }

  /** The number of the minute a moment lies in. */
  function MinuteOf(time: nat): nat {
    EPOCH + time / TICKS_PER_MINUTE
  }

  /** The moment a minute begins. */
  function Boundary(n: nat): int {
    (n - EPOCH) * TICKS_PER_MINUTE
  }

  /** A moment lies in the minute its microseconds since 1970 say. */
  lemma MomentsLieInMinutes(t: Minute, rest: nat)
    requires ValidMinute(t) && t.year >= 1970 && rest < 60 * 1_000_000
    ensures var minutes := Number(t) - Number(Minute(1970, 1, 1, 0, 0));
            && minutes >= 0 && MinuteOf(minutes * 60 * 1_000_000 + rest) == Number(t)
            && Boundary(MinuteOf(minutes * 60 * 1_000_000 + rest)) == minutes * 60 * 1_000_000
  {
    OrderIsNumeric(Minute(1970, 1, 1, 0, 0), t);
    EpochIs();
    hide Number, AtMost;
    var minutes := Number(t) - Number(Minute(1970, 1, 1, 0, 0));
    assert (minutes * 60_000_000 + rest) / 60_000_000 == minutes;
  }

  lemma EpochIs()
    ensures Number(Minute(1970, 1, 1, 0, 0)) == EPOCH
  {
    assert DaysBeforeYear(1970) == 719162;
  }

  /** A minute begins after a moment exactly when its number is above the moment's minute. */
  lemma BoundaryIsAfter(time: nat, n: nat)
    ensures Boundary(n) > time <==> n > MinuteOf(time)
  {
    var q := time / TICKS_PER_MINUTE;
    assert q * TICKS_PER_MINUTE <= time < (q + 1) * TICKS_PER_MINUTE;
  }

  /** `next_run_at`, for an enabled row */
  function NextRunAt(row: Schedule): Option<int>
    requires RowOk(row)
  {
    if row.cron.Some? then
      match NextFireNumber(ReadCron(row.cron.value).value, MinuteOf(Reference(row)))
      case Some(n) => Some(Boundary(n))
      case None => None
    else if row.last.None? then Some(row.created)
    else Some(row.last.value + row.every.value)
  }

  /** `_is_due` */
  function IsDue(row: Schedule, now: nat): bool
    requires RowOk(row)
  {
    if row.cron.Some? then
      match NextFireNumber(ReadCron(row.cron.value).value, MinuteOf(Reference(row)))
      case Some(n) => Boundary(n) <= now
      case None => false
    else
      row.last.None? || row.last.value + row.every.value <= now
  }

  /** A row is due from the moment shown as its next run on. */
  lemma DueFromNextRun(row: Schedule, now: nat)
    requires RowOk(row) && row.created <= now
    ensures IsDue(row, now) <==> NextRunAt(row).Some? && NextRunAt(row).value <= now
  {
  }

  // ---- cron rows ----

  ghost predicate FiresBetween(c: Cron, ref: nat, n: nat, now: nat) {
    Fires(c, n) && ref < Boundary(n) <= now
  }

  /** What the documentation calls due: a matching minute boundary has passed since `ref`. */
  ghost predicate BoundaryPassed(c: Cron, ref: nat, now: nat) {
    exists n: nat :: FiresBetween(c, ref, n, now)
  }

  /** Some matching minute lies in the search window after `ref`. */
  ghost predicate FiresInWindow(c: Cron, ref: nat) {
    exists n: nat :: Fires(c, n) && MinuteOf(ref) < n <= MinuteOf(ref) + 1 + SEARCH_DAYS * 1440
  }

  lemma NextFireIsFirst(c: Cron, ref: nat)
    ensures match NextFireNumber(c, MinuteOf(ref))
            case Some(n) => Fires(c, n) && ref < Boundary(n) && FiresInWindow(c, ref)
                            && (forall m: nat :: Fires(c, m) && ref < Boundary(m) ==> n <= m)
            case None => !FiresInWindow(c, ref)
  {
    hide Fires, FirstFire;
    var after := MinuteOf(ref);
    FirstFireIsLeast(c, after + 1, after + 1 + SEARCH_DAYS * 1440 + 1);
    forall m: nat ensures Boundary(m) > ref <==> m > after { BoundaryIsAfter(ref, m); }
  }

  /** A row with an expression is due exactly when a matching minute boundary has passed since its
      last start, provided that one lies in the search window; otherwise it is never due. */
  lemma CronDueIff(row: Schedule, now: nat)
    requires RowOk(row) && row.cron.Some?
    ensures var c := ReadCron(row.cron.value).value;
            IsDue(row, now) <==> FiresInWindow(c, Reference(row)) && BoundaryPassed(c, Reference(row), now)
  {
    hide Fires, NextFireNumber, FiresInWindow, MinuteOf;
    var c, ref := ReadCron(row.cron.value).value, Reference(row);
    NextFireIsFirst(c, ref);
    match NextFireNumber(c, MinuteOf(ref))
    case None =>
    case Some(n) =>
      if Boundary(n) <= now {
        assert FiresBetween(c, ref, n, now);
      }
      if m: nat :| FiresBetween(c, ref, m, now) {
        assert n <= m;
      }
  }

  /** So the documented meaning holds at all times exactly when a row whose expression fires at
      all after its last start fires within the window. */
  lemma DocumentedDueIff(row: Schedule)
    requires RowOk(row) && row.cron.Some?
    ensures var c := ReadCron(row.cron.value).value;
            (forall now: nat :: IsDue(row, now) <==> BoundaryPassed(c, Reference(row), now))
            <==> ((exists n: nat :: Fires(c, n) && Boundary(n) > Reference(row)) ==> FiresInWindow(c, Reference(row)))
  {
    hide Fires, IsDue, FiresInWindow, MinuteOf, Boundary;
    var c, ref := ReadCron(row.cron.value).value, Reference(row);
    forall now: nat
      ensures IsDue(row, now) <==> FiresInWindow(c, ref) && BoundaryPassed(c, ref, now)
    {
      CronDueIff(row, now);
    }
    if n: nat :| Fires(c, n) && Boundary(n) > ref {
      assert FiresBetween(c, ref, n, Boundary(n));
      assert BoundaryPassed(c, ref, Boundary(n));
    }
  }

  // ---- histories ----

  /** What happens to a row: a poll at `at` which, if the row is enabled and due, starts it and
      records the start at `mark`; or an edit of its recurrence or its switch. */
  datatype Event =
    | Poll(at: nat, mark: nat, task: string)
    | Edit(every: Option<nat>, cron: Option<string>, enabled: bool)

  /** A recorded start: for a cron row the minute it stands for, for an interval row the interval. */
  datatype Start =
    | CronStart(cron: Cron, fire: nat, mark: nat)
    | IntervalStart(every: nat, mark: nat)

  /** `mark_started` */
  function Started(row: Schedule, task: string, mark: nat): Schedule {
    row.(last := Some(mark), lastTask := Some(task))
  }

  function Edited(row: Schedule, e: Event): Schedule
    requires e.Edit?
  {
    row.(every := e.every, cron := e.cron, enabled := e.enabled)
  }

  function Next(row: Schedule, e: Event): Schedule
    requires RowOk(row)
  {
    match e
    case Edit(_, _, _) => Edited(row, e)
    case Poll(at, mark, task) => if row.enabled && IsDue(row, at) then Started(row, task, mark) else row
  }

  /** Polls come in order of time, a start is recorded no earlier than its poll, and edits leave
      a legal row. */
  predicate Timely(row: Schedule, now: nat, events: seq<Event>)
    decreases |events|
  {
    RowOk(row) && Reference(row) <= now
    && (events == [] ||
        match events[0]
        case Edit(_, _, _) => Timely(Edited(row, events[0]), now, events[1..])
        case Poll(at, mark, _) => now <= at <= mark && Timely(Next(row, events[0]), mark, events[1..]))
  }

  function StartOf(row: Schedule, mark: nat): Start
    requires RowOk(row)
    requires (row.cron.Some? ==> NextFireNumber(ReadCron(row.cron.value).value, MinuteOf(Reference(row))).Some?)
  {
    if row.cron.Some? then
      var c := ReadCron(row.cron.value).value;
      CronStart(c, NextFireNumber(c, MinuteOf(Reference(row))).value, mark)
    else IntervalStart(row.every.value, mark)
  }

  /** The starts a history records, in order. */
  function Starts(row: Schedule, now: nat, events: seq<Event>): seq<Start>
    requires Timely(row, now, events)
    decreases |events|
  {
    if events == [] then []
    else
      match events[0]
      case Edit(_, _, _) => Starts(Edited(row, events[0]), now, events[1..])
      case Poll(at, mark, _) =>
        var rest := Starts(Next(row, events[0]), mark, events[1..]);
        if row.enabled && IsDue(row, at) then [StartOf(row, mark)] + rest else rest
  }

  /** A start that stands for a firing after `ref` and no later than its own mark; or, given a
      previous start, one at least an interval after it. */
  ghost predicate StartOk(s: Start, ref: nat, started: bool) {
    match s
    case CronStart(c, fire, mark) =>
      Fires(c, fire) && ref < Boundary(fire) <= mark
      && (forall m: nat :: Fires(c, m) && ref < Boundary(m) ==> fire <= m)
    case IntervalStart(every, mark) => ref <= mark && (started ==> ref + every <= mark)
  }

  ghost predicate Chained(starts: seq<Start>, ref: nat, started: bool)
    decreases |starts|
  {
    starts == [] || (StartOk(starts[0], ref, started) && Chained(starts[1..], starts[0].mark, true))
  }

  lemma DueStartIsOk(row: Schedule, at: nat, mark: nat)
    requires RowOk(row) && IsDue(row, at) && Reference(row) <= at <= mark
    ensures row.cron.Some? ==> NextFireNumber(ReadCron(row.cron.value).value, MinuteOf(Reference(row))).Some?
    ensures StartOk(StartOf(row, mark), Reference(row), row.last.Some?) && StartOf(row, mark).mark == mark
  {
    hide Fires, NextFireNumber, MinuteOf, Boundary;
    if row.cron.Some? {
      NextFireIsFirst(ReadCron(row.cron.value).value, Reference(row));
    }
  }

  /** Every start of a history is counted from the start before it. */
  lemma {:induction false} StartsAreChained(row: Schedule, now: nat, events: seq<Event>)
    requires Timely(row, now, events)
    ensures Chained(Starts(row, now, events), Reference(row), row.last.Some?)
    decreases |events|
  {
    hide IsDue, StartOk, RowOk, StartOf;
    if events != [] {
      match events[0]
      case Edit(_, _, _) => StartsAreChained(Edited(row, events[0]), now, events[1..]);
      case Poll(at, mark, task) =>
        var rest := Starts(Next(row, events[0]), mark, events[1..]);
        StartsAreChained(Next(row, events[0]), mark, events[1..]);
        if row.enabled && IsDue(row, at) {
          DueStartIsOk(row, at, mark);
          assert ([StartOf(row, mark)] + rest)[1..] == rest;
        }
    }
  }

  ghost predicate Apart(earlier: Start, later: Start) {
    match later
    case CronStart(c, fire, mark) => earlier.mark < Boundary(fire) <= mark
    case IntervalStart(every, mark) => earlier.mark + every <= mark
  }

  lemma {:induction false} ChainedIsApart(starts: seq<Start>, ref: nat, started: bool, i: nat, j: nat)
    requires Chained(starts, ref, started) && i < j < |starts|
    ensures Apart(starts[i], starts[j])
    decreases j
  {
    if i > 0 {
      ChainedIsApart(starts[1..], starts[0].mark, true, i - 1, j - 1);
    } else {
      ChainedIsAfter(starts[1..], starts[0].mark, true, j - 1);
    }
  }

  lemma {:induction false} ChainedIsAfter(starts: seq<Start>, ref: nat, started: bool, j: nat)
    requires Chained(starts, ref, started) && j < |starts|
    ensures ref <= starts[j].mark
    ensures starts[j].CronStart? ==>
              Fires(starts[j].cron, starts[j].fire) && ref < Boundary(starts[j].fire) <= starts[j].mark
    ensures starts[j].IntervalStart? && (started || j > 0) ==> ref + starts[j].every <= starts[j].mark
    decreases j
  {
    if j > 0 {
      ChainedIsAfter(starts[1..], starts[0].mark, true, j - 1);
    }
  }

  /** Along any history: each cron start stands for its own matching minute, later than every
      earlier start and no later than its own record; each interval start but a first one comes a
      whole interval after every earlier start. */
  lemma StartsAreApart(row: Schedule, now: nat, events: seq<Event>, i: nat, j: nat)
    requires Timely(row, now, events) && i <= j < |Starts(row, now, events)|
    ensures var s := Starts(row, now, events);
            && (i < j ==> Apart(s[i], s[j]))
            && (i < j && s[i].CronStart? && s[j].CronStart? ==> s[i].fire < s[j].fire)
            && (s[j].CronStart? ==> Fires(s[j].cron, s[j].fire) && Reference(row) < Boundary(s[j].fire) <= s[j].mark)
            && (s[j].IntervalStart? && row.last.Some? ==> row.last.value + s[j].every <= s[j].mark)
  {
    hide Starts, Fires;
    var s := Starts(row, now, events);
    StartsAreChained(row, now, events);
    ChainedIsAfter(s, Reference(row), row.last.Some?, i);
    ChainedIsAfter(s, Reference(row), row.last.Some?, j);
    if i < j {
      ChainedIsApart(s, Reference(row), row.last.Some?, i, j);
    }
  }

  function MarkBefore(starts: seq<Start>, j: nat, ref: nat): nat
    requires j <= |starts|
  {
    if j == 0 then ref else starts[j - 1].mark
  }

  /** Start `j` is the one the minute `m` falls to: the first recorded at or after it. */
  ghost predicate FallsTo(starts: seq<Start>, j: nat, ref: nat, m: nat) {
    j < |starts| && MarkBefore(starts, j, ref) < Boundary(m) <= starts[j].mark
  }

  ghost predicate OnlyPolls(events: seq<Event>) {
    forall i :: 0 <= i < |events| ==> events[i].Poll?
  }

  ghost predicate PolledFrom(events: seq<Event>, time: int) {
    exists i :: 0 <= i < |events| && events[i].Poll? && events[i].at >= time
  }

  lemma PollIsDue(row: Schedule, at: nat, m: nat)
    requires RowOk(row) && row.cron.Some? && FiresBetween(ReadCron(row.cron.value).value, Reference(row), m, at)
    requires m <= MinuteOf(Reference(row)) + 1 + SEARCH_DAYS * 1440
    ensures IsDue(row, at)
  {
    hide Fires, NextFireNumber;
    BoundaryIsAfter(Reference(row), m);
    CronDueIff(row, at);
  }

  /** No matching minute is lost: each one the window reaches falls to exactly one start once a
      poll comes at or after it, and a start takes all the minutes missed since the one before. */
  lemma {:induction false} MissedMinutesCoalesce(row: Schedule, now: nat, events: seq<Event>, m: nat) returns (j: nat)
    requires Timely(row, now, events) && OnlyPolls(events) && row.enabled && row.cron.Some?
    requires Fires(ReadCron(row.cron.value).value, m) && Reference(row) < Boundary(m)
    requires m <= MinuteOf(Reference(row)) + 1 + SEARCH_DAYS * 1440
    requires PolledFrom(events, Boundary(m))
    ensures FallsTo(Starts(row, now, events), j, Reference(row), m)
    decreases |events|
  {
    hide Fires, IsDue, RowOk, ReadCron;
    var at, mark, next := events[0].at, events[0].mark, Next(row, events[0]);
    var rest := Starts(next, mark, events[1..]);
    if Boundary(m) <= at {
      PollIsDue(row, at, m);
      j := 0;
    } else if row.enabled && IsDue(row, at) && Boundary(m) <= mark {
      j := 0;
    } else {
      var i :| 0 <= i < |events| && events[i].Poll? && events[i].at >= Boundary(m);
      assert events[1..][i - 1] == events[i];
      assert forall k :: 0 <= k < |events| - 1 ==> events[1..][k] == events[k + 1];
      StillInWindow(row, next, m);
      j := MissedMinutesCoalesce(next, mark, events[1..], m);
      if row.enabled && IsDue(row, at) {
        DueStartIsOk(row, at, mark);
        assert Starts(row, now, events) == [StartOf(row, mark)] + rest;
        assert StartOf(row, mark).mark == mark;
        j := j + 1;
      }
    }
  }

  lemma StillInWindow(row: Schedule, next: Schedule, m: nat)
    requires Reference(row) <= Reference(next)
    requires m <= MinuteOf(Reference(row)) + 1 + SEARCH_DAYS * 1440
    ensures m <= MinuteOf(Reference(next)) + 1 + SEARCH_DAYS * 1440
  {
  }

  /** A row whose expression does not fire within the window is never started by polling. */
  lemma {:induction false} OutOfWindowNeverStarts(row: Schedule, now: nat, events: seq<Event>)
    requires Timely(row, now, events) && OnlyPolls(events) && row.cron.Some?
    requires !FiresInWindow(ReadCron(row.cron.value).value, Reference(row))
    ensures Starts(row, now, events) == []
    decreases |events|
  {
    hide IsDue, FiresInWindow, RowOk, ReadCron;
    if events != [] {
      CronDueIff(row, events[0].at);
      assert forall k :: 0 <= k < |events| - 1 ==> events[1..][k] == events[k + 1];
      OutOfWindowNeverStarts(row, events[0].mark, events[1..]);
    }
  }

  const LEAP_FIELDS := ["0", "0", "29", "2", "*"]

  /** "0 0 29 2 *" */
  const LEAP_EXPRESSION := Spaced(LEAP_FIELDS)

  lemma LeapExpressionReads()
    ensures ReadCron(LEAP_EXPRESSION) == Ok(LEAP_DAY) && ValidateCron(LEAP_EXPRESSION) == Ok(LEAP_EXPRESSION)
  {
    hide FieldValues, Words, Spaced;
    LeapWords();
    WordsOfSpaced(LEAP_FIELDS);
    LeapNumbers();
    NumberIsItself("0", MinuteField);
    NumberIsItself("0", HourField);
    NumberIsItself("29", DayField);
    NumberIsItself("2", MonthField);
    EveryWeekday();
  }

  lemma LeapWords()
    ensures forall i :: 0 <= i < |LEAP_FIELDS| ==> IsWord(LEAP_FIELDS[i])
  {
  }

  lemma LeapNumbers()
    ensures SpellsNumber("0", 0) && SpellsNumber("2", 2) && SpellsNumber("29", 29)
  {
    assert "0"[..0] == "" && "2"[..0] == "" && "29"[..1] == "2";
  }

  lemma EveryWeekday()
    ensures FieldValues("*", WeekdayField) == Ok({0, 1, 2, 3, 4, 5, 6})
  {
    hide FieldValues;
    StarIsEverything(WeekdayField, 0);
    var values := FieldValues("*", WeekdayField).value;
    forall v: nat ensures v in values <==> v in {0, 1, 2, 3, 4, 5, 6} {
      if v < 7 {
        StarIsEverything(WeekdayField, v);
      } else {
        FieldValuesAre("*", WeekdayField, v);
        if SomeCovers(Split("*", ','), WeekdayField, v) {
          CoveredIsInRange(Split("*", ','), WeekdayField, v);
        }
      }
    }
    assert values == {0, 1, 2, 3, 4, 5, 6};
  }

  lemma CoveredIsInRange(entries: seq<string>, field: Field, v: nat)
    requires SomeCovers(entries, field, v)
    ensures v <= Highest(field)
  {
    hide Spells;
  }

  /** 1 January 2021, as a moment. */
  const NEW_YEAR_MOMENT: nat := 18628 * 1440 * TICKS_PER_MINUTE

  /** A legal row for every 29 February, created at New Year 2021. */
  const LEAP_ROW := Schedule("leap", "p", "audit", None, Some(LEAP_EXPRESSION), true, None, None, NEW_YEAR_MOMENT)

  lemma LeapMinutes()
    ensures MinuteOf(NEW_YEAR_MOMENT) == Number(NEW_YEAR_2021)
    ensures Number(LEAP_DAY_2024) >= 0 && Boundary(Number(LEAP_DAY_2024)) > NEW_YEAR_MOMENT
  {
  }

  /** That row is never due, although its minute has passed on 29 February 2024. */
  lemma LeapRowIsNeverDue(now: nat)
    ensures RowOk(LEAP_ROW) && !IsDue(LEAP_ROW, now)
    ensures Number(LEAP_DAY_2024) >= 0
    ensures now >= Boundary(Number(LEAP_DAY_2024)) ==> BoundaryPassed(LEAP_DAY, NEW_YEAR_MOMENT, now)
  {
    hide Fires, ReadCron, ValidateCron, NextFireNumber, Number, MinuteOf, Boundary;
    LeapExpressionReads();
    LeapMinutes();
    LeapDayIsTooFar();
    if now >= Boundary(Number(LEAP_DAY_2024)) {
      assert FiresBetween(LEAP_DAY, NEW_YEAR_MOMENT, Number(LEAP_DAY_2024), now);
    }
  }
}
