/** The calendar screen of components/CalendarView.tsx: the month's task
    lists, loaded day by day, the status a day's square shows, the
    month grid with its leading padding, and month navigation. */
module CalendarView {

  import opened Types
  import opened Seqs
  import opened Strings
  import opened Dates
  import SupabaseDataService

  // ---------------------------------------------------------------------
  // Month arithmetic

  /** `new Date(year, month, d)` as the day handed to getTasksForDate:
      its `YYYY-MM-DD` string and its weekday. */
  function DayOf(year: int, month: int, d: int): Day
    requires ValidDate(year, month, d)
  {
    Day(FormatDate(year, month, d), WeekdayOf(year, month, d))
  }

  /** `new Date(y, m, 1).getDay()`. */
  function FirstDayOfMonth(year: int, month: int): (w: int)
    requires 0 <= month < 12
    ensures 0 <= w < 7
  {
    WeekdayOf(year, month, 1)
  }

  /** `daysInMonth` is "day 0 of the next month": the day after its last
      day is the first of the following month (of January of the next
      year after December). */
  lemma LastDayPrecedesNextMonth(year: int, month: int)
    requires 0 <= month < 12
    ensures month < 11 ==> DayNumber(year, month, DaysInMonth(year, month)) + 1 == DayNumber(year, month + 1, 1)
    ensures month == 11 ==> DayNumber(year, 11, DaysInMonth(year, 11)) + 1 == DayNumber(year + 1, 0, 1)
  {
    if month == 11 {
      MonthsFillYear(year);
      NextYearStart(year);
    }
  }

  /** Weekdays advance by one a day within a month. */
  lemma WeekdayAdvance(year: int, month: int, d: int, k: int)
    requires 0 <= month < 12 && k >= 0
    ensures WeekdayOf(year, month, d + k) == (WeekdayOf(year, month, d) + k) % 7
  {
    var a := DayNumber(year, month, d) + 1;
    assert DayNumber(year, month, d + k) + 1 == a + k;
    var q := a / 7;
    assert a == 7 * q + a % 7;
    assert a + k == 7 * q + (a % 7 + k);
  }

  /** The first weekday of the next month is the first weekday of this
      month moved on by the length of this month. */
  lemma NextFirstDay(year: int, month: int)
    requires 0 <= month < 12
    ensures var (ny, nm) := NextMonth(year, month);
            FirstDayOfMonth(ny, nm) == (FirstDayOfMonth(year, month) + DaysInMonth(year, month)) % 7
  {
    LastDayPrecedesNextMonth(year, month);
    WeekdayAdvance(year, month, 1, DaysInMonth(year, month));
  }

  // ---------------------------------------------------------------------
  // Navigation

  /** `new Date(year, month - 1)`: month -1 rolls back to December of the
      previous year. */
  function PreviousMonth(year: int, month: int): (r: (int, int))
    requires 0 <= month < 12
    ensures 0 <= r.1 < 12
    ensures MonthIndex(r.0, r.1) == MonthIndex(year, month) - 1
  {
    if month == 0 then (year - 1, 11) else (year, month - 1)
  }

  /** `new Date(year, month + 1)`: month 12 rolls over to January of the
      next year. */
  function NextMonth(year: int, month: int): (r: (int, int))
    requires 0 <= month < 12
    ensures 0 <= r.1 < 12
    ensures MonthIndex(r.0, r.1) == MonthIndex(year, month) + 1
  {
    if month == 11 then (year + 1, 0) else (year, month + 1)
  }

  /** Months counted from January of year 0. */
  function MonthIndex(year: int, month: int): int {
    12 * year + month
  }

  /** Going back and then forward (or forward and then back) returns to
      the month one started from. */
  lemma NavigationRoundTrip(year: int, month: int)
    requires 0 <= month < 12
    ensures var (py, pm) := PreviousMonth(year, month); NextMonth(py, pm) == (year, month)
    ensures var (ny, nm) := NextMonth(year, month); PreviousMonth(ny, nm) == (year, month)
  {
  }

  // ---------------------------------------------------------------------
  // Grid

  /** A square of the month grid: an empty padding square or a day. */
  datatype Cell = Pad | DayCell(day: int)

  /** `startDay` padding squares, then the squares 1..totalDays. */
  function Grid(year: int, month: int): (g: seq<Cell>)
    requires 0 <= month < 12
    ensures |g| == FirstDayOfMonth(year, month) + DaysInMonth(year, month)
  {
    seq(FirstDayOfMonth(year, month), _ => Pad) + seq(DaysInMonth(year, month), i => DayCell(i + 1))
  }

  /** The grid holds fewer than 7 padding squares, and then every day of
      the month once, in order. */
  lemma GridShape(year: int, month: int)
    requires 0 <= month < 12
    ensures var g := Grid(year, month);
            var start := FirstDayOfMonth(year, month);
            start < 7 &&
            (forall i :: 0 <= i < |g| ==> (g[i].Pad? <==> i < start)) &&
            (forall d :: 1 <= d <= DaysInMonth(year, month) ==> g[start + d - 1] == DayCell(d))
  {
  }

  /** Under the header Dom..Sáb, each day's square falls in the column of
      its weekday: that is what the padding is for. */
  lemma GridColumnIsWeekday(year: int, month: int, i: int)
    requires 0 <= month < 12
    requires 0 <= i < |Grid(year, month)| && Grid(year, month)[i].DayCell?
    ensures 1 <= Grid(year, month)[i].day <= DaysInMonth(year, month)
    ensures i % 7 == WeekdayOf(year, month, Grid(year, month)[i].day)
  {
    var g := Grid(year, month);
    var start := FirstDayOfMonth(year, month);
    assert g[i] == DayCell(i - start + 1) by {
      assert i >= start;
      assert g[i] == seq(DaysInMonth(year, month), j => DayCell(j + 1))[i - start];
    }
    WeekdayAdvance(year, month, 1, i - start);
  }

  // ---------------------------------------------------------------------
  // Day status

  datatype DayStatus = Empty | Failed | Pending | Warning | Success

  predicate LogHas(t: Task, s: BackupStatus) {
    t.log.Some? && t.log.value.status == s
  }

  /** `getDayStatus` on a day's tasks: failed beats pending, which beats
      warning, which beats success; a day with no tasks is empty. */
  function StatusOf(tasks: seq<Task>): (r: DayStatus)
    ensures r == Empty <==> |tasks| == 0
    ensures r == DayStatus.Failed <==> exists i :: 0 <= i < |tasks| && LogHas(tasks[i], BackupStatus.Failed)
    ensures r == DayStatus.Pending <==>
              (forall i :: 0 <= i < |tasks| ==> !LogHas(tasks[i], BackupStatus.Failed)) &&
              (exists i :: 0 <= i < |tasks| && tasks[i].log.None?)
    ensures r == DayStatus.Warning <==>
              (forall i :: 0 <= i < |tasks| ==> tasks[i].log.Some? && !LogHas(tasks[i], BackupStatus.Failed)) &&
              (exists i :: 0 <= i < |tasks| && LogHas(tasks[i], BackupStatus.Warning))
    ensures r == Success <==>
              |tasks| > 0 &&
              (forall i :: 0 <= i < |tasks| ==>
                 tasks[i].log.Some? && !LogHas(tasks[i], BackupStatus.Failed) &&
                 !LogHas(tasks[i], BackupStatus.Warning))
  {
    if |tasks| == 0 then Empty
    else
      var allDone := All(tasks, (t: Task) => t.log.Some?);
      var hasFailed := Any(tasks, (t: Task) => LogHas(t, BackupStatus.Failed));
      var hasWarnings := Any(tasks, (t: Task) => LogHas(t, BackupStatus.Warning));
      if hasFailed then DayStatus.Failed
      else if !allDone then DayStatus.Pending
      else if hasWarnings then DayStatus.Warning
      else Success
  }

  /** `getDayStatus(d)`: the tasks stored under the day's string, or none. */
  function GetDayStatus(monthTasks: map<string, seq<Task>>, year: int, month: int, d: int): (r: DayStatus)
    requires ValidDate(year, month, d)
    ensures FormatDate(year, month, d) !in monthTasks ==> r == Empty
    ensures FormatDate(year, month, d) in monthTasks ==> r == StatusOf(monthTasks[FormatDate(year, month, d)])
  {
    var dateStr := FormatDate(year, month, d);
    StatusOf(if dateStr in monthTasks then monthTasks[dateStr] else [])
  }

  // ---------------------------------------------------------------------
  // Loading a month

  /** `loadMonthData`: for d = 1..totalDays, the tasks `getTasksForDate`
      gives for that day, stored under the day's string. The map ends
      with one entry per day of the month and no other. The service call
      is the parameter `getTasksForDate`. */
  method LoadMonthData(year: int, month: int, getTasksForDate: Day -> seq<Task>)
    returns (tasksMap: map<string, seq<Task>>)
    requires 0 <= year <= 9999 && 0 <= month < 12
    ensures tasksMap.Keys == DayKeys(year, month, DaysInMonth(year, month))
    ensures forall d :: 1 <= d <= DaysInMonth(year, month) ==>
              FormatDate(year, month, d) in tasksMap &&
              tasksMap[FormatDate(year, month, d)] == getTasksForDate(DayOf(year, month, d))
  {
    var totalDays := DaysInMonth(year, month);
    tasksMap := map[];
    var d := 1;
    while d <= totalDays
      invariant 1 <= d <= totalDays + 1
      invariant Loaded(year, month, d - 1, tasksMap, getTasksForDate)
    {
      var checkDate := DayOf(year, month, d);
      var tasks := getTasksForDate(checkDate);
      LoadedStep(year, month, d, tasksMap, getTasksForDate);
      tasksMap := tasksMap[checkDate.dateStr := tasks];
      d := d + 1;
    }
  }

  /** `m` holds days 1..n of the month, each under its string, and nothing else. */
  predicate Loaded(year: int, month: int, n: int, m: map<string, seq<Task>>, f: Day -> seq<Task>)
    requires 0 <= year <= 9999 && 0 <= month < 12 && n <= DaysInMonth(year, month)
  {
    m.Keys == DayKeys(year, month, n) &&
    forall e :: 1 <= e <= n ==>
      FormatDate(year, month, e) in m && m[FormatDate(year, month, e)] == f(DayOf(year, month, e))
  }

  /** Storing day `d` extends a map holding days 1..d-1 to days 1..d. */
  lemma LoadedStep(year: int, month: int, d: int, m: map<string, seq<Task>>, f: Day -> seq<Task>)
    requires ValidDate(year, month, d)
    requires Loaded(year, month, d - 1, m, f)
    ensures Loaded(year, month, d, m[FormatDate(year, month, d) := f(DayOf(year, month, d))], f)
  {
    DifferentDaysDifferentKeys(year, month, d);
  }

  /** The strings of days 1..n of the month. */
  function DayKeys(year: int, month: int, n: int): set<string>
    requires 0 <= year <= 9999 && 0 <= month < 12 && n <= DaysInMonth(year, month)
    decreases n
  {
    if n <= 0 then {} else DayKeys(year, month, n - 1) + {FormatDate(year, month, n)}
  }

  /** The keys of a loaded month are exactly its days' strings, ... */
  lemma {:induction false} DayKeysExact(year: int, month: int, n: int)
    requires 0 <= year <= 9999 && 0 <= month < 12 && 0 <= n <= DaysInMonth(year, month)
    ensures forall k :: k in DayKeys(year, month, n) <==>
              exists e :: 1 <= e <= n && k == FormatDate(year, month, e)
    decreases n
  {
    if n > 0 {
      DayKeysExact(year, month, n - 1);
      var before := DayKeys(year, month, n - 1);
      var last := FormatDate(year, month, n);
      assert DayKeys(year, month, n) == before + {last};
      forall k | k in before + {last}
        ensures exists e :: 1 <= e <= n && k == FormatDate(year, month, e)
      {
        if k != last {
          var e :| 1 <= e <= n - 1 && k == FormatDate(year, month, e);
        }
      }
      forall e | 1 <= e <= n
        ensures FormatDate(year, month, e) in before + {last}
      {
        if e < n {
          assert FormatDate(year, month, e) in before;
        }
      }
    }
  }

  /** ... one per day: a month has `DaysInMonth` entries. */
  lemma {:induction false} DayKeysCount(year: int, month: int, n: int)
    requires 0 <= year <= 9999 && 0 <= month < 12 && 0 <= n <= DaysInMonth(year, month)
    ensures |DayKeys(year, month, n)| == n
    decreases n
  {
    if n > 0 {
      DayKeysCount(year, month, n - 1);
      var key := FormatDate(year, month, n);
      var before := DayKeys(year, month, n - 1);
      LaterKeyNotEarlier(year, month, n - 1, n);
      assert DayKeys(year, month, n) == before + {key};
    }
  }

  /** The string of day `d` is not among those of days 1..m before it. */
  lemma {:induction false} LaterKeyNotEarlier(year: int, month: int, m: int, d: int)
    requires ValidDate(year, month, d) && 0 <= m < d
    ensures FormatDate(year, month, d) !in DayKeys(year, month, m)
    decreases m
  {
    if m > 0 {
      LaterKeyNotEarlier(year, month, m - 1, d);
      FormatDateOrder(year, month, m, year, month, d);
    }
  }

  lemma DifferentDaysDifferentKeys(year: int, month: int, d: int)
    requires ValidDate(year, month, d)
    ensures forall e :: 1 <= e < d ==> FormatDate(year, month, e) != FormatDate(year, month, d)
  {
    forall e | 1 <= e < d
      ensures FormatDate(year, month, e) != FormatDate(year, month, d)
    {
      FormatDateOrder(year, month, e, year, month, d);
    }
  }

  /** Once the month is loaded from the hosted service, a day's square
      shows the status of the tasks derived for that very day. */
  lemma LoadedDayStatus(year: int, month: int, d: int, tasksMap: map<string, seq<Task>>,
                        schedules: SupabaseDataService.Query<SupabaseDataService.ScheduleRow>,
                        logs: SupabaseDataService.Query<SupabaseDataService.JoinedLog>)
    requires 0 <= year <= 9999 && 0 <= month < 12 && 1 <= d <= DaysInMonth(year, month)
    requires forall e :: 1 <= e <= DaysInMonth(year, month) ==>
               FormatDate(year, month, e) in tasksMap &&
               tasksMap[FormatDate(year, month, e)] ==
                 SupabaseDataService.TasksForDate(schedules, logs, DayOf(year, month, e))
    ensures GetDayStatus(tasksMap, year, month, d) ==
              StatusOf(SupabaseDataService.TasksForDate(schedules, logs, DayOf(year, month, d)))
  {
  }
}
