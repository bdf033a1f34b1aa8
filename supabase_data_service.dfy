/** The hosted-database service of services/supabaseDataService.ts, as
    the pure processing around its queries: rows in, records out, the
    patches sent to `update`, the task derivation and the date bounds of
    the monthly report. A query's answer is a parameter: its rows, no
    data, or an error. */
module SupabaseDataService {

  import opened Types
  import opened Seqs
  import opened Strings
  import opened Dates

  // ---------------------------------------------------------------------
  // Rows (types/database.ts)

  datatype UserRow = UserRow(id: string, email: string, name: string, lastName: string,
                             role: UserRole)

  datatype ScheduleRow = ScheduleRow(id: string, name: string, kind: BackupType,
                                     frequency: FrequencyType,
                                     daysOfWeek: Option<seq<int>>,
                                     description: Option<string>, createdAt: string)

  datatype LogRow = LogRow(id: string, scheduleId: string, userId: Option<string>,
                           status: BackupStatus, notes: Option<string>, dateStr: string,
                           timestamp: string)

  datatype PersonName = PersonName(name: string, lastName: string)

  /** A log row with the joined `schedule:backup_schedules(name)` and
      `user:users(name, last_name)`; either is null once the referenced
      row is gone. */
  datatype JoinedLog = JoinedLog(row: LogRow, scheduleName: Option<string>, user: Option<PersonName>)

  /** A mapped log with the extra `scheduleName` property the report shows. */
  datatype ReportLog = ReportLog(log: BackupLog, scheduleName: string)

  datatype Query<T> = Rows(data: seq<T>) | NoData | QueryError

  /** The fallbacks of getLogs and getMonthlyReport. */
  const MissingUser: string := "Usuario eliminado"
  const MissingSchedule: string := "Tarea eliminada"

  // ---------------------------------------------------------------------
  // Row mappings

  function MapUser(r: UserRow): (u: User)
    ensures u.id == r.id && u.email == r.email && u.role == r.role
    ensures u.name == r.name && u.lastName == r.lastName && u.password.None?
  {
    User(r.id, r.name, r.lastName, r.email, None, r.role)
  }

  /** getUsers: an error or no data gives the empty list. */
  function GetUsers(q: Query<UserRow>): (r: seq<User>)
    ensures !q.Rows? ==> r == []
    ensures q.Rows? ==> |r| == |q.data| && forall i :: 0 <= i < |r| ==> r[i] == MapUser(q.data[i])
  {
    if q.Rows? then Map(q.data, MapUser) else []
  }

  /** `s.days_of_week || undefined` keeps any array (even an empty one)
      and turns null into undefined; `s.description || ''` turns null and
      the empty string into the empty string. */
  function MapSchedule(r: ScheduleRow): (s: BackupSchedule)
    ensures s.id == r.id && s.name == r.name && s.kind == r.kind && s.frequency == r.frequency
    ensures s.daysOfWeek == r.daysOfWeek
    ensures r.description.None? ==> s.description == ""
    ensures r.description.Some? ==> s.description == r.description.value
  {
    BackupSchedule(r.id, r.name, r.kind, r.frequency, r.daysOfWeek,
                   if r.description.Some? && r.description.value != "" then r.description.value else "")
  }

  function GetSchedules(q: Query<ScheduleRow>): (r: seq<BackupSchedule>)
    ensures !q.Rows? ==> r == []
    ensures q.Rows? ==> |r| == |q.data| && forall i :: 0 <= i < |r| ==> r[i] == MapSchedule(q.data[i])
  {
    if q.Rows? then Map(q.data, MapSchedule) else []
  }

  /** The row saveSchedule inserts, as the database stores it under
      the id and creation time it assigns. */
  function InsertedSchedule(d: ScheduleDraft, id: string, createdAt: string): ScheduleRow {
    ScheduleRow(id, d.name, d.kind, d.frequency, d.daysOfWeek, Some(d.description), createdAt)
  }

  /** Saving a schedule and mapping the returned row gives the draft back
      under its new id. */
  lemma SaveScheduleRoundTrip(d: ScheduleDraft, id: string, createdAt: string)
    ensures MapSchedule(InsertedSchedule(d, id, createdAt)) == ScheduleWithId(d, id)
  {
  }

  /** saveSchedule: the inserted row read back with `.single()`. */
  function SavedSchedule(q: Query<ScheduleRow>): (r: Option<BackupSchedule>)
    ensures r.Some? <==> q.Rows? && |q.data| == 1
    ensures r.Some? ==> r.value == MapSchedule(q.data[0])
  {
    if q.Rows? && |q.data| == 1 then Some(MapSchedule(q.data[0])) else None
  }

  /** The mapping shared by getLogs, saveLog, getTasksForDate and
      getMonthlyReport; they differ only in the text shown for a missing
      user and a missing (or unnamed) schedule. */
  function MapLog(j: JoinedLog, missingUser: string, missingSchedule: string): (r: ReportLog)
    ensures r.log.id == j.row.id && r.log.scheduleId == j.row.scheduleId
    ensures r.log.status == j.row.status && r.log.timestamp == j.row.timestamp
    ensures r.log.dateStr == j.row.dateStr
    ensures r.log.userId == (if j.row.userId.Some? then j.row.userId.value else "")
    ensures r.log.notes == (if j.row.notes.Some? then j.row.notes.value else "")
    ensures j.user.None? ==> r.log.userName == missingUser
    ensures j.user.Some? ==> r.log.userName == j.user.value.name + " " + j.user.value.lastName
    ensures r.scheduleName == (if j.scheduleName.Some? && j.scheduleName.value != ""
                               then j.scheduleName.value else missingSchedule)
  {
    var user := if j.user.Some? then j.user.value.name + " " + j.user.value.lastName else missingUser;
    var log := BackupLog(j.row.id, j.row.scheduleId, j.row.status, j.row.timestamp,
                         j.row.userId.GetOr(""), user, j.row.notes.GetOr(""), j.row.dateStr);
    ReportLog(log, if j.scheduleName.Some? && j.scheduleName.value != "" then j.scheduleName.value
                   else missingSchedule)
  }

  function ReportRow(j: JoinedLog): ReportLog {
    MapLog(j, MissingUser, MissingSchedule)
  }

  /** getLogs (newest first, as the query orders them) and the rows of
      getMonthlyReport. */
  function GetLogs(q: Query<JoinedLog>): (r: seq<ReportLog>)
    ensures !q.Rows? ==> r == []
    ensures q.Rows? ==> |r| == |q.data| && forall i :: 0 <= i < |r| ==> r[i] == ReportRow(q.data[i])
  {
    if q.Rows? then Map(q.data, ReportRow) else []
  }

  /** saveLog: the inserted row read back with empty fallbacks. */
  function SavedLog(q: Query<JoinedLog>): (r: Option<ReportLog>)
    ensures r.Some? <==> q.Rows? && |q.data| == 1
    ensures r.Some? ==> r.value == MapLog(q.data[0], "", "")
  {
    if q.Rows? && |q.data| == 1 then Some(MapLog(q.data[0], "", "")) else None
  }

  /** The row saveLog inserts: the draft's columns under the id the database
      assigns. The person's display name is not a column of the row. */
  function InsertedLog(d: LogDraft, id: string): LogRow {
    LogRow(id, d.scheduleId, Some(d.userId), d.status, Some(d.notes), d.dateStr, d.timestamp)
  }

  /** Saving a log and reading the inserted row back gives the draft under
      its new id, except that the person's name comes from the joined user
      row ("" once that row is gone). */
  lemma SaveLogRoundTrip(d: LogDraft, id: string, scheduleName: Option<string>, user: Option<PersonName>)
    ensures SavedLog(Rows([JoinedLog(InsertedLog(d, id), scheduleName, user)])).Some?
    ensures SavedLog(Rows([JoinedLog(InsertedLog(d, id), scheduleName, user)])).value.log
         == LogWithId(d.(userName := if user.Some? then user.value.name + " " + user.value.lastName else ""), id)
  {
  }

  // ---------------------------------------------------------------------
  // Update patches

  /** `Partial<...>` arguments: None is a property left undefined. */
  datatype ScheduleUpdates = ScheduleUpdates(name: Option<string>, kind: Option<BackupType>,
                                             frequency: Option<FrequencyType>,
                                             daysOfWeek: Option<seq<int>>,
                                             description: Option<string>)

  /** The `dbUpdates` record: the columns it sets. */
  datatype SchedulePatch = SchedulePatch(name: Option<string>, kind: Option<BackupType>,
                                         frequency: Option<FrequencyType>,
                                         daysOfWeek: Option<seq<int>>,
                                         description: Option<string>)

  /** What `update(dbUpdates).eq('id', id)` does to the matching row. */
  function ApplySchedulePatch(r: ScheduleRow, p: SchedulePatch): ScheduleRow {
    r.(name := p.name.GetOr(r.name), kind := p.kind.GetOr(r.kind),
       frequency := p.frequency.GetOr(r.frequency),
       daysOfWeek := if p.daysOfWeek.Some? then p.daysOfWeek else r.daysOfWeek,
       description := if p.description.Some? then p.description else r.description)
  }

  /** updateSchedule's patch: name, type and frequency only when truthy
      (an empty name is skipped), days and description whenever given. */
  method UpdateSchedulePatch(u: ScheduleUpdates) returns (p: SchedulePatch)
    ensures forall r :: ApplySchedulePatch(r, p) ==
                        r.(name := if u.name.Some? && u.name.value != "" then u.name.value else r.name,
                           kind := if u.kind.Some? then u.kind.value else r.kind,
                           frequency := if u.frequency.Some? then u.frequency.value else r.frequency,
                           daysOfWeek := if u.daysOfWeek.Some? then u.daysOfWeek else r.daysOfWeek,
                           description := if u.description.Some? then u.description else r.description)
  {
    p := SchedulePatch(None, None, None, None, None);
    if u.name.Some? && u.name.value != "" { p := p.(name := u.name); }
    if u.kind.Some? { p := p.(kind := u.kind); }
    if u.frequency.Some? { p := p.(frequency := u.frequency); }
    if u.daysOfWeek.Some? { p := p.(daysOfWeek := u.daysOfWeek); }
    if u.description.Some? { p := p.(description := u.description); }
  }

  datatype UserUpdates = UserUpdates(name: Option<string>, lastName: Option<string>,
                                     role: Option<UserRole>, password: Option<string>)

  datatype UserPatch = UserPatch(name: Option<string>, lastName: Option<string>, role: Option<UserRole>)

  function ApplyUserPatch(r: UserRow, p: UserPatch): UserRow {
    r.(name := p.name.GetOr(r.name), lastName := p.lastName.GetOr(r.lastName),
       role := p.role.GetOr(r.role))
  }

  /** updateUser around its two calls: the profile update, whose failure
      ends the operation, and the password RPC, made only for a password
      of at least 6 characters. The calls' failures are parameters;
      `rpcPassword` is what the RPC is sent, if it is called. */
  method UpdateUser(u: UserUpdates, profileFails: bool, rpcFails: bool)
    returns (ok: bool, p: UserPatch, rpcPassword: Option<string>)
    ensures forall r :: ApplyUserPatch(r, p) ==
                        r.(name := if u.name.Some? && u.name.value != "" then u.name.value else r.name,
                           lastName := if u.lastName.Some? && u.lastName.value != "" then u.lastName.value
                                       else r.lastName,
                           role := if u.role.Some? then u.role.value else r.role)
    ensures rpcPassword.Some? <==> !profileFails && u.password.Some? && |u.password.value| >= 6
    ensures rpcPassword.Some? ==> rpcPassword == u.password
    ensures ok <==> !profileFails && (rpcPassword.None? || !rpcFails)
  {
    p := UserPatch(None, None, None);
    if u.name.Some? && u.name.value != "" { p := p.(name := u.name); }
    if u.lastName.Some? && u.lastName.value != "" { p := p.(lastName := u.lastName); }
    if u.role.Some? { p := p.(role := u.role); }
    rpcPassword := None;
    if profileFails {
      ok := false;
      return;
    }
    if u.password.Some? && |u.password.value| >= 6 {
      rpcPassword := u.password;
      if rpcFails {
        ok := false;
        return;
      }
    }
    ok := true;
  }

  // ---------------------------------------------------------------------
  // getTasksForDate

  /** The filter as written: `FrequencyType.CUSTOM` is not a member of the
      enumeration, so the comparison with it is always false and only
      WEEKLY schedules are looked up in `daysOfWeek`. */
  predicate DueOnAsWritten(s: BackupSchedule, weekday: int) {
    match s.frequency
    case Daily => true
    case Weekly => s.daysOfWeek.Some? && weekday in s.daysOfWeek.value
    case SpecificDays => false
    case Custom => false
  }

  /** The filter as intended: WEEKLY and CUSTOM (the database's name for
      a set of weekdays) are due on the weekdays they list. */
  predicate DueOn(s: BackupSchedule, weekday: int) {
    match s.frequency
    case Daily => true
    case Weekly => s.daysOfWeek.Some? && weekday in s.daysOfWeek.value
    case Custom => s.daysOfWeek.Some? && weekday in s.daysOfWeek.value
    case SpecificDays => false
  }

  function TaskLog(j: JoinedLog): BackupLog {
    MapLog(j, "", "").log
  }

  /** `new Map(logs.map(log => [log.schedule_id, ...]))`: later entries
      overwrite earlier ones, so each schedule id maps to its last row. */
  function LogsMap(rows: seq<JoinedLog>): (m: map<string, BackupLog>)
    ensures forall k :: k in m <==> LastRowFor(rows, k).Some?
    ensures forall k :: k in m ==> m[k] == TaskLog(LastRowFor(rows, k).value)
    decreases |rows|
  {
    if rows == [] then map[]
    else
      var n := |rows| - 1;
      LogsMap(rows[..n])[rows[n].row.scheduleId := TaskLog(rows[n])]
  }

  /** The last row for schedule `id`. */
  function LastRowFor(rows: seq<JoinedLog>, id: string): Option<JoinedLog> {
    FindLast(rows, (j: JoinedLog) => j.row.scheduleId == id)
  }

  /** The last row of the table for schedule `id` on `dateStr`. */
  function LastRowOn(table: seq<JoinedLog>, id: string, dateStr: string): Option<JoinedLog> {
    FindLast(table, (j: JoinedLog) => j.row.scheduleId == id && j.row.dateStr == dateStr)
  }

  /** The logs query `.eq('date_str', dateStr)`, in table order. */
  function RowsOn(table: seq<JoinedLog>, dateStr: string): (r: seq<JoinedLog>)
    ensures forall j :: j in r <==> j in table && j.row.dateStr == dateStr
    ensures |r| == |set k | 0 <= k < |table| && table[k].row.dateStr == dateStr|
    ensures Subseq(r, table)
  {
    var onDay := (j: JoinedLog) => j.row.dateStr == dateStr;
    assert Positions(table, onDay) == set k | 0 <= k < |table| && table[k].row.dateStr == dateStr;
    Filter(table, onDay)
  }

  /** The map built from a day's rows holds, for each schedule, the last
      row of the whole table for that schedule and day. */
  lemma LogsMapOnDate(table: seq<JoinedLog>, dateStr: string, id: string)
    ensures id in LogsMap(RowsOn(table, dateStr)) <==> LastRowOn(table, id, dateStr).Some?
    ensures id in LogsMap(RowsOn(table, dateStr)) ==>
              LogsMap(RowsOn(table, dateStr))[id] == TaskLog(LastRowOn(table, id, dateStr).value)
  {
    FindLastFilter(table, (j: JoinedLog) => j.row.dateStr == dateStr,
                   (j: JoinedLog) => j.row.scheduleId == id,
                   (j: JoinedLog) => j.row.scheduleId == id && j.row.dateStr == dateStr);
  }

  function PairedLog(m: map<string, BackupLog>, s: BackupSchedule): Task {
    Task(s, if s.id in m then Some(m[s.id]) else None)
  }

  function TasksWith(schedules: Query<ScheduleRow>, logs: Query<JoinedLog>, day: Day,
                     due: (BackupSchedule, int) -> bool): seq<Task>
  {
    if !logs.Rows? then []
    else
      var m := LogsMap(RowsOn(logs.data, day.dateStr));
      Map(DueFilter(GetSchedules(schedules), due, day.weekday), (s: BackupSchedule) => PairedLog(m, s))
  }

  /** The schedules passing `due` on a weekday, in query order: one per
      passing position. */
  function DueFilter(ss: seq<BackupSchedule>, due: (BackupSchedule, int) -> bool, weekday: int): (r: seq<BackupSchedule>)
    ensures Subseq(r, ss)
    ensures forall s :: s in r <==> s in ss && due(s, weekday)
    ensures |r| == |set i | 0 <= i < |ss| && due(ss[i], weekday)|
  {
    var p := (s: BackupSchedule) => due(s, weekday);
    assert Positions(ss, p) == set i | 0 <= i < |ss| && due(ss[i], weekday);
    Filter(ss, p)
  }

  /** getTasksForDate as written. */
  function TasksForDateAsWritten(schedules: Query<ScheduleRow>, logs: Query<JoinedLog>, day: Day): seq<Task> {
    TasksWith(schedules, logs, day, DueOnAsWritten)
  }

  /** getTasksForDate with CUSTOM schedules looked up as intended: one
      task per due schedule, no other, in the order the schedules query
      returns them, each paired with the LAST of that day's rows for it;
      an error or empty answer of either query gives no tasks. */
  function TasksForDate(schedules: Query<ScheduleRow>, logs: Query<JoinedLog>, day: Day): (r: seq<Task>)
    ensures !logs.Rows? || !schedules.Rows? ==> r == []
    ensures schedules.Rows? ==> |r| <= |schedules.data|
    ensures forall t :: t in r ==> t.schedule in GetSchedules(schedules) && DueOn(t.schedule, day.weekday)
    ensures Subseq(Map(r, ScheduleOf), GetSchedules(schedules))
    ensures logs.Rows? ==> |r| == |set i | 0 <= i < |GetSchedules(schedules)| && DueOn(GetSchedules(schedules)[i], day.weekday)|
    ensures logs.Rows? ==> forall s :: s in GetSchedules(schedules) && DueOn(s, day.weekday) ==>
      exists i :: 0 <= i < |r| && r[i].schedule == s
    ensures forall i :: 0 <= i < |r| ==>
      r[i].log == (var last := LastRowOn(logs.data, r[i].schedule.id, day.dateStr);
                   if last.Some? then Some(TaskLog(last.value)) else None)
  {
    var due: (BackupSchedule, int) -> bool := DueOn;
    var ss := GetSchedules(schedules);
    assert (set i | 0 <= i < |ss| && due(ss[i], day.weekday)) == set i | 0 <= i < |ss| && DueOn(ss[i], day.weekday);
    TasksWithShape(schedules, logs, day, due);
    TasksWith(schedules, logs, day, due)
  }

  /** What any schedule test makes of the two answers: the tasks are the
      schedules passing it, in order and one per passing position, each
      with the last row of that day for it. */
  lemma TasksWithShape(schedules: Query<ScheduleRow>, logs: Query<JoinedLog>, day: Day,
                       due: (BackupSchedule, int) -> bool)
    ensures var r := TasksWith(schedules, logs, day, due);
            (!logs.Rows? || !schedules.Rows? ==> r == []) &&
            (schedules.Rows? ==> |r| <= |schedules.data|) &&
            (logs.Rows? ==> |r| == |set i | 0 <= i < |GetSchedules(schedules)| && due(GetSchedules(schedules)[i], day.weekday)|) &&
            (forall t :: t in r ==> t.schedule in GetSchedules(schedules) && due(t.schedule, day.weekday)) &&
            Subseq(Map(r, ScheduleOf), GetSchedules(schedules)) &&
            (logs.Rows? ==> forall s :: s in GetSchedules(schedules) && due(s, day.weekday) ==>
               exists i :: 0 <= i < |r| && r[i].schedule == s) &&
            (forall i :: 0 <= i < |r| ==>
               r[i].log == (var last := LastRowOn(logs.data, r[i].schedule.id, day.dateStr);
                            if last.Some? then Some(TaskLog(last.value)) else None))
  {
    var r := TasksWith(schedules, logs, day, due);
    if logs.Rows? {
      var due' := DueFilter(GetSchedules(schedules), due, day.weekday);
      assert Map(r, ScheduleOf) == due';
      forall s | s in due' ensures exists i :: 0 <= i < |r| && r[i].schedule == s {
        var i :| 0 <= i < |due'| && due'[i] == s;
        assert r[i].schedule == s;
      }
      TasksWithLogs(schedules, logs, day, due);
    }
  }

  /** Each task carries the last of that day's rows for its schedule. */
  lemma TasksWithLogs(schedules: Query<ScheduleRow>, logs: Query<JoinedLog>, day: Day,
                      due: (BackupSchedule, int) -> bool)
    requires logs.Rows?
    ensures var r := TasksWith(schedules, logs, day, due);
            forall i :: 0 <= i < |r| ==>
               r[i].log == (var last := LastRowOn(logs.data, r[i].schedule.id, day.dateStr);
                            if last.Some? then Some(TaskLog(last.value)) else None)
  {
    var r := TasksWith(schedules, logs, day, due);
    forall i | 0 <= i < |r|
      ensures r[i].log == (var last := LastRowOn(logs.data, r[i].schedule.id, day.dateStr);
                           if last.Some? then Some(TaskLog(last.value)) else None)
    {
      LogsMapOnDate(logs.data, day.dateStr, r[i].schedule.id);
    }
  }

  /** A CUSTOM schedule listing the day's weekday: the code as written
      leaves it out, the intended filter keeps it. */
  lemma CustomScheduleDropped()
    ensures var row := ScheduleRow("c1", "Nube", Cloud, Custom, Some([3]), None, "2024-01-01");
            var day := Day("2024-01-03", 3);
            TasksForDateAsWritten(Rows([row]), Rows([]), day) == [] &&
            TasksForDate(Rows([row]), Rows([]), day) == [Task(MapSchedule(row), None)]
  {
    var row := ScheduleRow("c1", "Nube", Cloud, Custom, Some([3]), None, "2024-01-01");
    var day := Day("2024-01-03", 3);
    var s := MapSchedule(row);
    assert GetSchedules(Rows([row])) == [s];
    assert [s][1..] == [];
    assert DueFilter([s], DueOnAsWritten, day.weekday) == [];
    assert DueFilter([s], DueOn, day.weekday) == [s];
    assert LogsMap(RowsOn([], day.dateStr)) == map[];
  }

  /** The two filters agree on every frequency but CUSTOM. */
  lemma DueOnDiffersOnlyOnCustom(s: BackupSchedule, weekday: int)
    ensures DueOnAsWritten(s, weekday) != DueOn(s, weekday) ==>
            s.frequency == Custom && s.daysOfWeek.Some? && weekday in s.daysOfWeek.value
  {
  }

  // ---------------------------------------------------------------------
  // getMonthlyReport period bounds

  /** `.gte('date_str', startDate).lte('date_str', endDate)`. */
  predicate InPeriod(dateStr: string, startDate: string, endDate: string) {
    LexLe(startDate, dateStr) && LexLe(dateStr, endDate)
  }

  /** The bounds of a month take in exactly that month's dates, both
      ends included. */
  lemma MonthPeriodExact(year: int, month: int, y: int, m: int, d: int)
    requires 0 <= year <= 9999 && 0 <= month <= 11 && ValidDate(y, m, d)
    ensures var endDate := FormatDate(year, month, DaysInMonth(year, month));
            InPeriod(FormatDate(y, m, d), FormatDate(year, month, 1), endDate) <==> y == year && m == month
  {
    FormatDateOrder(year, month, 1, y, m, d);
    FormatDateOrder(y, m, d, year, month, DaysInMonth(year, month));
  }

  /** The bounds `${year}-01-01`..`${year}-12-31` of a four-digit year
      take in exactly that year's dates. */
  lemma YearPeriodExact(year: int, y: int, m: int, d: int)
    requires 1000 <= year <= 9999 && ValidDate(y, m, d)
    ensures InPeriod(FormatDate(y, m, d), NatToString(year) + "-01-01", NatToString(year) + "-12-31")
            <==> y == year
  {
    NatToStringOfFourDigits(year);
    assert Digits(1, 2) == "01" && Digits(12, 2) == "12" && Digits(31, 2) == "31";
    var Y := Digits(year, 4);
    assert FormatDate(year, 0, 1) == Y + "-01-01" by {
      assert Y + "-" + "01" + "-" + "01" == Y + "-01-01";
    }
    assert FormatDate(year, 11, 31) == Y + "-12-31" by {
      assert Y + "-" + "12" + "-" + "31" == Y + "-12-31";
    }
    FormatDateOrder(year, 0, 1, y, m, d);
    FormatDateOrder(y, m, d, year, 11, 31);
  }

  /** getMonthlyReport's `startDate`/`endDate`: month -1 is the whole
      year, printed with `${year}`; otherwise the first and the last day
      of that month. The `date_str` filter they drive keeps exactly the
      dates of the month (or, for a four-digit year, of the year). */
  method PeriodBounds(year: int, month: int) returns (startDate: string, endDate: string)
    requires 0 <= year <= 9999 && -1 <= month <= 11
    ensures month == -1 ==> startDate == NatToString(year) + "-01-01" && endDate == NatToString(year) + "-12-31"
    ensures month >= 0 ==> startDate == FormatDate(year, month, 1) &&
                           endDate == FormatDate(year, month, DaysInMonth(year, month))
    ensures month >= 0 ==> forall y, m, d :: ValidDate(y, m, d) ==>
              (InPeriod(FormatDate(y, m, d), startDate, endDate) <==> y == year && m == month)
    ensures month == -1 && 1000 <= year ==> forall y, m, d :: ValidDate(y, m, d) ==>
              (InPeriod(FormatDate(y, m, d), startDate, endDate) <==> y == year)
  {
    if month == -1 {
      startDate := NatToString(year) + "-01-01";
      endDate := NatToString(year) + "-12-31";
      if 1000 <= year {
        forall y, m, d | ValidDate(y, m, d)
          ensures InPeriod(FormatDate(y, m, d), startDate, endDate) <==> y == year
        {
          YearPeriodExact(year, y, m, d);
        }
      }
    } else {
      startDate := FormatDate(year, month, 1);
      endDate := FormatDate(year, month, DaysInMonth(year, month));
      forall y, m, d | ValidDate(y, m, d)
        ensures InPeriod(FormatDate(y, m, d), startDate, endDate) <==> y == year && m == month
      {
        MonthPeriodExact(year, month, y, m, d);
      }
    }
  }
}
