/** The table of recurring runs and the server's pass over it (schedules.py, `ScheduleStore`;
    web/server.py, `_schedules_tick`). */
module ScheduleTable {
  import opened Wrappers
  import opened Text
  import opened Calendar
  import opened CronFire
  import opened CronText
  import opened Schedules

  datatype ScheduleError =
    | BothRecurrences | NoRecurrence | BadCron(why: CronError) | BadInterval | EmptyPrompt
    | UnknownSchedule | DuplicateId | NoFields

  /** `_normalize_cron`: nothing and blank text are no expression. */
  function NormalizeCron(cron: Option<string>): Result<Option<string>, ScheduleError> {
    if cron.None? || IsBlank(cron.value) then Ok(None)
    else
      match ValidateCron(cron.value)
      case Err(e) => Err(BadCron(e))
      case Ok(text) => Ok(Some(text))
  }

  function ValidateInterval(every: Option<int>): Result<Option<nat>, ScheduleError> {
    if every.None? then Ok(None)
    else if every.value < MIN_INTERVAL then Err(BadInterval)
    else Ok(Some(every.value))
  }

  /** A field an update may leave alone. */
  datatype Change<T> = Keep | Set(value: T)

  datatype Changes = Changes(prompt: Change<string>, every: Change<Option<int>>, cron: Change<Option<string>>,
                             enabled: Change<bool>)

  /** The row an update leaves, or the reason there is none. */
  function Merged(row: Schedule, f: Changes): Result<Schedule, ScheduleError> {
    var cron := if f.cron.Set? then NormalizeCron(f.cron.value) else Ok(row.cron);
    if cron.Err? then Err(cron.error) else
    var every := if f.every.Set? then ValidateInterval(f.every.value) else Ok(row.every);
    if every.Err? then Err(every.error) else
    if (f.cron.Set? || f.every.Set?) && cron.value.None? && every.value.None? then Err(NoRecurrence)
    else Ok(row.(prompt := if f.prompt.Set? then f.prompt.value else row.prompt,
                 every := every.value, cron := cron.value,
                 enabled := if f.enabled.Set? then f.enabled.value else row.enabled))
  }

  lemma NormalizedIsLegal(cron: Option<string>)
    requires NormalizeCron(cron).Ok? && NormalizeCron(cron).value.Some?
    ensures ValidateCron(NormalizeCron(cron).value.value) == Ok(NormalizeCron(cron).value.value)
  {
    hide ValidateCron;
    StoredFormKeepsMeaning(cron.value);
  }

  /** An update that succeeds is an edit in the sense of the histories, and the row stays legal. */
  lemma MergedIsEdited(row: Schedule, f: Changes)
    requires RowOk(row) && Merged(row, f).Ok?
    ensures var r := Merged(row, f).value;
            RowOk(r) && r == Edited(row, Edit(r.every, r.cron, r.enabled)).(prompt := r.prompt)
  {
    hide ValidateCron;
    if f.cron.Set? && NormalizeCron(f.cron.value).value.Some? {
      NormalizedIsLegal(f.cron.value);
    }
  }

  /** A field is what the update sets it to, or what it was. */
  ghost predicate Takes<T>(change: Change<T>, was: T, now: T) {
    match change case Set(value) => now == value case Keep => now == was
  }

  /** What an update makes of a row: only its prompt, interval, expression and switch can change, each when
      it is set; setting an expression to nothing or to blank text takes it away. */
  lemma UpdateTakes(row: Schedule, f: Changes)
    requires RowOk(row) && Merged(row, f).Ok?
    ensures var r := Merged(row, f).value;
            && Takes(f.prompt, row.prompt, r.prompt) && Takes(f.enabled, row.enabled, r.enabled)
            && (f.every.Keep? ==> r.every == row.every) && (f.cron.Keep? ==> r.cron == row.cron)
            && (f.every.Set? ==> f.every.value == if r.every.Some? then Some(r.every.value as int) else None)
            && (f.every.Set? && r.every.Some? ==> r.every.value >= 15 * 60 * 1_000_000)
            && (f.cron.Set? ==> (r.cron.None? <==> f.cron.value.None? || IsBlank(f.cron.value.value)))
            && (f.cron.Set? && r.cron.Some? ==>
                  && ReadCron(f.cron.value.value).Ok? && ReadCron(r.cron.value) == ReadCron(f.cron.value.value)
                  && ValidateCron(r.cron.value) == Ok(r.cron.value))
            && (r.cron.Some? || r.every.Some?)
            && (r.id, r.project, r.last, r.lastTask, r.created)
               == (row.id, row.project, row.last, row.lastTask, row.created)
  {
    hide ReadCron, IsBlank, Words, Spaced;
    if f.cron.Set? && NormalizeCron(f.cron.value).value.Some? {
      StoredFormKeepsMeaning(f.cron.value.value);
    }
  }

  ghost predicate TableOk(rows: seq<Schedule>) {
    && (forall i :: 0 <= i < |rows| ==> RowOk(rows[i]))
    && (forall i, j :: 0 <= i < j < |rows| ==> rows[i].id != rows[j].id)
  }

  /** The enabled rows that are due, in the order of the table. */
  function DueRows(rows: seq<Schedule>, now: nat): seq<Schedule>
    requires forall i :: 0 <= i < |rows| ==> RowOk(rows[i])
  {
    if rows == [] then []
    else
      var n := |rows| - 1;
      DueRows(rows[..n], now) + if rows[n].enabled && IsDue(rows[n], now) then [rows[n]] else []
  }

  lemma {:induction false} DueRowsAre(rows: seq<Schedule>, now: nat, row: Schedule)
    requires forall i :: 0 <= i < |rows| ==> RowOk(rows[i])
    ensures row in DueRows(rows, now) <==> row in rows && row.enabled && RowOk(row) && IsDue(row, now)
  {
    hide RowOk, IsDue;
    if rows != [] {
      var n := |rows| - 1;
      DueRowsAre(rows[..n], now, row);
      assert rows == rows[..n] + [rows[n]];
    }
  }

  lemma {:induction false} DueRowsAreDistinct(rows: seq<Schedule>, now: nat)
    requires TableOk(rows)
    ensures var due := DueRows(rows, now); forall i, j :: 0 <= i < j < |due| ==> due[i].id != due[j].id
  {
    hide RowOk, IsDue;
    if rows != [] {
      var n := |rows| - 1;
      DueRowsAreDistinct(rows[..n], now);
      var before := DueRows(rows[..n], now);
      forall i | 0 <= i < |before| ensures before[i].id != rows[n].id {
        DueRowsAre(rows[..n], now, before[i]);
      }
    }
  }

  class ScheduleStore {
    var rows: seq<Schedule>

    ghost predicate Valid()
      reads this
    {
      TableOk(rows)
    }

    constructor ()
      ensures Valid() && rows == []
    {
      rows := [];
    }

    method Find(sid: string) returns (found: bool, at: nat)
      requires Valid()
      ensures found ==> at < |rows| && rows[at].id == sid
      ensures !found ==> forall i :: 0 <= i < |rows| ==> rows[i].id != sid
    {
      hide RowOk;
      for i := 0 to |rows|
        invariant forall k :: 0 <= k < i ==> rows[k].id != sid
      {
        if rows[i].id == sid {
          return true, i;
        }
      }
      return false, 0;
    }

    /** `create`: exactly one recurrence, a prompt, and an identifier not yet taken. */
    method Create(sid: string, project: string, prompt: string, every: Option<int>, cron: Option<string>, now: nat)
      returns (r: Result<Schedule, ScheduleError>)
      requires Valid()
      modifies this
      ensures Valid()
      ensures r.Ok? <==>
                && NormalizeCron(cron).Ok?
                && (NormalizeCron(cron).value.Some? <==> every.None?)
                && (every.Some? ==> every.value >= 15 * 60 * 1_000_000)
                && !IsBlank(prompt)
                && forall i :: 0 <= i < |old(rows)| ==> old(rows)[i].id != sid
      ensures r.Ok? ==>
                && rows == old(rows) + [r.value]
                && r.value == Schedule(sid, project, prompt, ValidateInterval(every).value, NormalizeCron(cron).value,
                                       true, None, None, now)
      ensures r.Err? ==> rows == old(rows)
    {
      hide NormalizeCron, ValidateCron;
      var normal := NormalizeCron(cron);
      if normal.Err? {
        return Err(normal.error);
      }
      if normal.value.Some? && every.Some? {
        return Err(BothRecurrences);
      }
      if normal.value.None? && every.None? {
        return Err(NoRecurrence);
      }
      var hours := ValidateInterval(every);
      if hours.Err? {
        return Err(hours.error);
      }
      if IsBlank(prompt) {
        return Err(EmptyPrompt);
      }
      var found, _ := Find(sid);
      if found {
        return Err(DuplicateId);
      }
      var row := Schedule(sid, project, prompt, hours.value, normal.value, true, None, None, now);
      if normal.value.Some? {
        NormalizedIsLegal(cron);
      }
      rows := rows + [row];
      r := Ok(row);
    }

    /** `update`: the start that due times are counted from stays what it was. */
    method Update(sid: string, f: Changes) returns (r: Result<Schedule, ScheduleError>)
      requires Valid()
      modifies this
      ensures Valid()
      ensures r.Err? ==> rows == old(rows)
      ensures r == Err(UnknownSchedule) ==> forall i :: 0 <= i < |old(rows)| ==> old(rows)[i].id != sid
      ensures r.Ok? <==> (f.prompt.Set? || f.every.Set? || f.cron.Set? || f.enabled.Set?)
                         && exists i :: 0 <= i < |old(rows)| && old(rows)[i].id == sid && Merged(old(rows)[i], f).Ok?
      ensures r.Ok? ==> |rows| == |old(rows)|
                        && (forall i :: 0 <= i < |rows| ==>
                              if old(rows)[i].id == sid then Merged(old(rows)[i], f) == Ok(rows[i])
                              else rows[i] == old(rows)[i])
    {
      hide RowOk, ValidateCron;
      if f.prompt.Keep? && f.every.Keep? && f.cron.Keep? && f.enabled.Keep? {
        return Err(NoFields);
      }
      if f.cron.Set? && NormalizeCron(f.cron.value).Err? {
        return Err(NormalizeCron(f.cron.value).error);
      }
      if f.every.Set? && ValidateInterval(f.every.value).Err? {
        return Err(BadInterval);
      }
      var found, at := Find(sid);
      if !found {
        return Err(UnknownSchedule);
      }
      var merged := Merged(rows[at], f);
      if merged.Err? {
        return Err(merged.error);
      }
      MergedIsEdited(rows[at], f);
      rows := rows[at := merged.value];
      r := Ok(merged.value);
    }

    /** `due`; the search of each cron row is the skipping one. */
    method Due(now: nat) returns (due: seq<Schedule>)
      requires Valid()
      ensures due == DueRows(rows, now)
    {
      hide RowOk, IsDue;
      due := [];
      for i := 0 to |rows|
        invariant due == DueRows(rows[..i], now)
      {
        assert rows[..i + 1][..i] == rows[..i];
        if rows[i].enabled {
          var ready := CheckDue(rows[i], now);
          if ready {
            due := due + [rows[i]];
          }
        }
      }
      assert rows[..|rows|] == rows;
    }

    /** `mark_started` */
    method MarkStarted(sid: string, task: string, now: nat) returns (known: bool)
      requires Valid()
      modifies this
      ensures Valid()
      ensures known <==> exists i :: 0 <= i < |old(rows)| && old(rows)[i].id == sid
      ensures |rows| == |old(rows)|
      ensures forall i :: 0 <= i < |rows| ==>
                rows[i] == if old(rows)[i].id == sid then old(rows)[i].(last := Some(now), lastTask := Some(task))
                           else old(rows)[i]
    {
      hide ValidateCron;
      var found, at := Find(sid);
      if found {
        rows := rows[at := Started(rows[at], task, now)];
      }
      known := found;
    }

    /** One pass of the server: every due row is enqueued under a task of its own and then marked;
        a row whose run cannot be enqueued is passed over. */
    method Tick(polled: nat, marked: nat, task: string -> string, refused: set<string>)
      requires Valid()
      modifies this
      ensures Valid()
      ensures |rows| == |old(rows)|
      ensures forall i :: 0 <= i < |rows| ==> RowOk(old(rows)[i])
      ensures forall i :: 0 <= i < |rows| ==>
                var row := old(rows)[i];
                rows[i] == if row.id in refused then row else Next(row, Poll(polled, marked, task(row.id)))
    {
      hide RowOk, IsDue, Started, DueRows;
      ghost var before := rows;
      var due := Due(polled);
      DueRowsAreDistinct(rows, polled);
      forall row ensures row in due <==> row in before && row.enabled && RowOk(row) && IsDue(row, polled) {
        DueRowsAre(rows, polled, row);
      }
      for k := 0 to |due|
        invariant Valid() && |rows| == |before|
        invariant forall i :: 0 <= i < |rows| ==>
                    rows[i] == if before[i] in due[..k] && before[i].id !in refused
                               then Started(before[i], task(before[i].id), marked) else before[i]
      {
        StartedIs();
        assert due[..k + 1] == due[..k] + [due[k]];
        assert due[k] in before;
        if due[k].id !in refused {
          var _ := MarkStarted(due[k].id, task(due[k].id), marked);
        }
      }
      assert due[..|due|] == due;
      StartedIs();
    }

    lemma StartedIs()
      ensures forall row: Schedule, task: string, mark: nat {:trigger Started(row, task, mark)} ::
                Started(row, task, mark) == row.(last := Some(mark), lastTask := Some(task))
    {
    }
  }

  /** `_is_due`, with the search that skips. */
  method CheckDue(row: Schedule, now: nat) returns (due: bool)
    requires RowOk(row)
    ensures due == IsDue(row, now)
  {
    hide NextFireNumber, ReadCron, Number, At;
    if row.cron.None? {
      return row.last.None? || row.last.value + row.every.value <= now;
    }
    var n := MinuteOf(Reference(row));
    NumberOfAt(n);
    var fire := NextFire(ReadCron(row.cron.value).value, At(n));
    match fire {
      case None => return false;
      case Some(t) => return Boundary(Number(t)) <= now;
    }
  }
}
