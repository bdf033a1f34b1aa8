# Backup tracking dashboard — a Dafny model

The application tracks scheduled backup jobs: database dumps, FTP syncs, external disks and cloud copies.

- An administrator defines schedules. Each is DAILY, WEEKLY, or due on listed weekdays.
- Technicians register a log for each schedule on the day it is due. The log says COMPLETED, WARNING or FAILED, with notes.
- Supervisors and administrators look at five views:
  - today's dashboard;
  - a month calendar coloured by day status;
  - a filterable monthly report with CSV export;
  - an administration panel with status statistics and the activity list;
  - the account page.

There are two data services:

- **The browser-local store.** It keeps users, schedules and logs as lists. It falls back to fixture data when nothing is stored.
- **The hosted service.** It maps database rows (with joined schedule and user names) into records, and builds partial-update patches.

Both derive "the tasks of a day" from the schedules and the logs. They do it differently:

- The local store takes the **first** log of a schedule for that date.
- The hosted service builds a map keyed by schedule id, so the **last** row wins.

This project models that logic as Dafny functions, methods and classes, and proves what the screens rely on.

## How the model is laid out

Each file holds one module.

- `types.dfy` (`Types`)
  - The records and enumerations, and the fixture users and schedules.
  - A calendar day is the pair `Day(dateStr, weekday)`, so no clock is involved.
- `seqs.dfy` (`Seqs`) and `strings.dfy` (`Strings`)
  - The array operations the code is written with: `filter`, `map`, `find`, `some`, `every`, and last-wins lookup.
  - Code-unit string order, `split`/`join`, and zero-padded decimal fields.
- `dates.dfy` (`Dates`)
  - The proleptic Gregorian calendar: month lengths, weekdays, and `YYYY-MM-DD` keys.
  - The proof that the order of those keys is the order of dates.
- `data_service.dfy` (`DataService`)
  - The local store as the class `LocalStore`, one field per storage key, and its task derivation.
- `supabase_data_service.dfy` (`SupabaseDataService`)
  - Row mappings, patch builders, task derivation and report period bounds for the hosted service.
- One module per screen:
  - `calendar_view.dfy`
  - `dashboard.dfy`
  - `monthly_report.dfy`
  - `backup_registration.dfy`
  - `account_profile.dfy`
  - `admin_panel.dfy`

Calls into the hosted database are inputs to the model:

- a query answer is `Query<T> = Rows(data) | NoData | QueryError`;
- a remote call's success is a boolean parameter;
- the per-day service call in the calendar loop is a function parameter;
- the password change is a function parameter.

## Model

| member | source | states |
|---|---|---|
| Types.UserWithId | services/dataService.ts:37-43 | a saved user is the draft's fields plus the new id |
| Types.ScheduleWithId | services/dataService.ts:51-57 | a saved schedule is the draft's fields plus the new id |
| Types.LogWithId | services/dataService.ts:65-74 | a saved log is the draft's fields plus the new id |
| Types.StatusNameInjective | types.ts:17-22 | distinct statuses have distinct string values |
| DataService.DueSchedules | services/dataService.ts:88-95 | order-preserving subsequence of the schedules, one element per passing position; a schedule is kept iff DAILY, or WEEKLY/SPECIFIC_DAYS with `daysOfWeek` containing the weekday |
| DataService.FirstLogFor | services/dataService.ts:98 | None iff no log matches schedule id and date; otherwise the first matching log in store order |
| DataService.TasksForDate | services/dataService.ts:82-100 | one task per due schedule, in store order, no more tasks than schedules, each with the first log filed for it that day; any attached log is in the store and matches |
| DataService.NoDaysOnlyDaily | services/dataService.ts:89-95 | a returned schedule without `daysOfWeek` is DAILY |
| DataService.FindUser | services/dataService.ts:12-14 | None iff no user has both email and password; otherwise the first such user |
| DataService.RemoveLog | services/dataService.ts:76-80 | order-preserving subsequence holding exactly the logs whose id differs, one per such position |
| DataService.RemoveAbsentLog | services/dataService.ts:76-80 | deleting an id no log carries changes nothing |
| DataService.RemoveLogIdempotent | services/dataService.ts:76-80 | deleting twice is deleting once |
| DataService.FirstLogAfterAppend | services/dataService.ts:98 | appending a log (line 71) leaves existing first matches alone and fills an unmatched pair with the new log when it matches |
| DataService.LocalStore.constructor | services/dataService.ts:32-63 | an empty storage reads as the fixture users, the fixture schedules and no logs |
| DataService.LocalStore.GetUsers | services/dataService.ts:32-35 | the stored list, or the fixture users when none is stored |
| DataService.LocalStore.GetSchedules | services/dataService.ts:46-49 | the stored list, or the fixture schedules when none is stored |
| DataService.LocalStore.GetLogs | services/dataService.ts:60-63 | the stored list, or no logs when none is stored |
| DataService.LocalStore.Login | services/dataService.ts:12-20 | returns the first user matching both credentials and records it as current; on no match returns None and records nothing |
| DataService.LocalStore.GetCurrentUser | services/dataService.ts:22-25 | the recorded current user |
| DataService.LocalStore.Logout | services/dataService.ts:27-29 | no current user afterwards |
| DataService.LocalStore.SaveUser | services/dataService.ts:37-43 | the user list grows by exactly the new user; earlier users unchanged and in order |
| DataService.LocalStore.SaveSchedule | services/dataService.ts:51-57 | the schedule list grows by exactly the new schedule; earlier schedules unchanged and in order |
| DataService.LocalStore.SaveLog | services/dataService.ts:65-74 | the log list grows by exactly the new log; earlier logs unchanged and in order |
| DataService.LocalStore.DeleteLog | services/dataService.ts:76-80 | the stored logs become the old logs without that id |
| DataService.LocalStore.GetTasksForDate | services/dataService.ts:82-87 | the derivation applied to the stored (or default) schedules and logs |
| DataService.MockTasks | services/dataService.ts:88-99 | with nothing stored (the fixtures of lines 46-49), Monday lists both fixture schedules as pending, any other weekday only the daily one |
| DataService.MockLogin | services/dataService.ts:12-20 | the fixture admin logs in with its own password and not with another user's |
| SupabaseDataService.MapUser | services/supabaseDataService.ts:97-103 | a user record carries the row's id, email, role and names, and no password |
| SupabaseDataService.GetUsers | services/supabaseDataService.ts:87-107 | an error or a missing answer gives no users; otherwise one mapped user per row, in order |
| SupabaseDataService.MapSchedule | services/supabaseDataService.ts:220-227 | fields copied; a null description becomes `''` |
| SupabaseDataService.GetSchedules | services/supabaseDataService.ts:210-232 | an error or a missing answer gives no schedules; otherwise one mapped schedule per row, in order |
| SupabaseDataService.SaveScheduleRoundTrip | services/supabaseDataService.ts:236-258 | mapping the inserted row back gives the draft with its new id |
| SupabaseDataService.SavedSchedule | services/supabaseDataService.ts:246-258 | a schedule iff the insert answered with exactly one row, mapped |
| SupabaseDataService.MapLog | services/supabaseDataService.ts:318-328 | the same mapping as lines 476-486: each field as the row has it; a null user id or null notes gives `''`; a missing user gives the missing-user text; a missing or empty schedule name gives the missing-schedule text |
| SupabaseDataService.GetLogs | services/supabaseDataService.ts:304-333 | an error or a missing answer gives no logs; otherwise one report log per row, in order, with "Usuario eliminado"/"Tarea eliminada" fallbacks |
| SupabaseDataService.SavedLog | services/supabaseDataService.ts:354-368 | a log iff the insert answered with exactly one row, mapped with empty-string fallbacks |
| SupabaseDataService.SaveLogRoundTrip | services/supabaseDataService.ts:337-368 | reading the inserted log row back gives the draft under its new id, with the person's name taken from the joined user row ("" when it is gone) |
| SupabaseDataService.UpdateSchedulePatch | services/supabaseDataService.ts:267-272 | applying the patch sets name, type and frequency only when given and non-empty, and days and description whenever given; nothing else changes |
| SupabaseDataService.UpdateUser | services/supabaseDataService.ts:163-193 | applying the patch sets each given non-empty name, last name and role and nothing else; the password call happens iff the profile update succeeded and the password has at least 6 characters; the result is true iff no call that ran failed |
| SupabaseDataService.LogsMap | services/supabaseDataService.ts:410-425 | a schedule id is a key iff some row carries it, and maps to its last row, with `''` fallbacks |
| SupabaseDataService.RowsOn | services/supabaseDataService.ts:405 | exactly the rows filed under the date, in table order, one per such position |
| SupabaseDataService.LogsMapOnDate | services/supabaseDataService.ts:398-425 | the map built from a day's rows holds, per schedule, the last row of the table for that schedule and day |
| SupabaseDataService.TasksForDate | services/supabaseDataService.ts:392-443 | an error or a missing answer gives no tasks; otherwise exactly the due schedules (DAILY, or WEEKLY/CUSTOM with the weekday listed), in schedule order, as many tasks as due positions, each with the last row for it on that day |
| SupabaseDataService.DueFilter | services/supabaseDataService.ts:427-434 | the schedules passing the day's test, as an order-preserving subsequence with one element per passing position |
| SupabaseDataService.TasksWithShape | services/supabaseDataService.ts:427-438 | the same shape for any schedule test, in particular the one as written: one task per passing position, in order, with the day's last row |
| SupabaseDataService.CustomScheduleDropped | services/supabaseDataService.ts:428-434 | a CUSTOM schedule listing the weekday: dropped as written, kept by the intended filter |
| SupabaseDataService.DueOnDiffersOnlyOnCustom | services/supabaseDataService.ts:428-434 | the written and intended filters differ only on CUSTOM schedules that list the weekday |
| SupabaseDataService.MonthPeriodExact | services/supabaseDataService.ts:454-460 | under the comparisons of lines 469-470, the bounds of a month admit exactly the dates of that month, both ends included |
| SupabaseDataService.YearPeriodExact | services/supabaseDataService.ts:450-453 | under the comparisons of lines 469-470, `year-01-01`..`year-12-31` admit exactly the dates of that four-digit year |
| SupabaseDataService.PeriodBounds | services/supabaseDataService.ts:447-460 | month -1 gives the year's bounds, any other month its first and last day, each admitting exactly its dates |
| Dates.DaysInMonth | components/CalendarView.tsx:37 | 28..31 days; February has 29 in a Gregorian leap year and 28 otherwise; April, June, September and November have 30, the other months 31 |
| Dates.WeekdayOf | components/CalendarView.tsx:38 | a weekday 0..6 (checked against known dates) |
| Dates.FormatDateOrder | services/supabaseDataService.ts:469-470 | comparing `YYYY-MM-DD` keys as strings is comparing the dates; equal keys are equal dates |
| CalendarView.FirstDayOfMonth | components/CalendarView.tsx:38 | the weekday 0..6 of the month's first day |
| CalendarView.NextFirstDay | components/CalendarView.tsx:37-38 | the next month starts `daysInMonth` weekdays after this one |
| CalendarView.PreviousMonth | components/CalendarView.tsx:81 | one month earlier, rolling into December of the previous year |
| CalendarView.NextMonth | components/CalendarView.tsx:88 | one month later, rolling into January of the next year |
| CalendarView.NavigationRoundTrip | components/CalendarView.tsx:81-88 | previous then next, and next then previous, return to the same month |
| CalendarView.GridShape | components/CalendarView.tsx:102-106 | `firstDayOfMonth` padding cells, then cells numbered 1..totalDays in order |
| CalendarView.GridColumnIsWeekday | components/CalendarView.tsx:96-106 | each numbered cell sits in the column of its weekday |
| CalendarView.StatusOf | components/CalendarView.tsx:52-60 | empty iff no tasks; failed iff some log FAILED; pending iff none failed and some task unlogged; warning iff all logged, none failed, one WARNING; success otherwise |
| CalendarView.GetDayStatus | components/CalendarView.tsx:48-61 | a day missing from the map is empty; otherwise the status of its tasks |
| CalendarView.LoadMonthData | components/CalendarView.tsx:16-28 | the keys are exactly the month's date keys, each mapped to the service's tasks for that day |
| CalendarView.DayKeysCount | components/CalendarView.tsx:23-27 | the month has as many distinct keys as days |
| CalendarView.LoadedDayStatus | components/CalendarView.tsx:48-61 | after loading (the component's state, lines 16-28), a day's status is the status of the hosted service's tasks for it |
| Dashboard.PendingCount | components/Dashboard.tsx:37 | the number of positions holding a task without a log; zero iff every task has a log |
| Dashboard.CompletedCount | components/Dashboard.tsx:38 | the number of positions holding a task logged COMPLETED; zero iff there is none |
| Dashboard.IssueCount | components/Dashboard.tsx:39 | the number of positions holding a task logged WARNING or FAILED; zero iff there is none |
| Dashboard.CountsAddUp | components/Dashboard.tsx:37-39 | the three counters add up to at most the tasks, and to exactly the tasks when no log is PENDING |
| Dashboard.PendingStatusUncounted | components/Dashboard.tsx:37-39 | a task logged PENDING is in no counter |
| Dashboard.Click | components/Dashboard.tsx:112 | a click opens registration for the task's schedule iff the task has no log |
| Dashboard.ClickableArePending | components/Dashboard.tsx:112 | the clickable tasks are the pending ones that `pendingCount` (line 37) counts |
| Dashboard.DeleteRow | services/supabaseDataService.ts:375-380 | exactly the rows whose id differs remain, in table order, one per such position |
| Dashboard.SameSchedules | components/Dashboard.tsx:30-35 | re-deriving the day with other log rows lists the same schedules in the same order |
| Dashboard.UndoMakesPending | components/Dashboard.tsx:30-35 | after the undo the same task comes back, without a log iff the deleted log was its only row that day |
| Dashboard.LastRowAfterDelete | services/supabaseDataService.ts:410-425 | after deleting an id (lines 375-380), a schedule has no row left on a day iff all its rows that day had that id |
| MonthlyReport.FilteredData | components/MonthlyReport.tsx:100-121 | order-preserving subsequence, as many rows as report positions that pass (the "Mostrando N registros" count); a log is kept iff each non-empty filter passes: person, status, not before local midnight of the from-day, not after the last millisecond of the local to-day |
| MonthlyReport.FilteredDataAsWritten | components/MonthlyReport.tsx:100-121 | order-preserving subsequence of the logs passing the test with the bounds the code computes, with one row per passing report position |
| MonthlyReport.BoundsAsWritten | components/MonthlyReport.tsx:108-118 | for a zone less than a day from UTC, the computed bounds are the local days picked at UTC or east of it, and one day earlier west of it |
| MonthlyReport.ToDayLogDropped | components/MonthlyReport.tsx:113-117 | at UTC-5, a log of 12:00 local time on the picked day is dropped as written and kept as intended |
| MonthlyReport.NoFiltersShowAll | components/MonthlyReport.tsx:100-121 | with all filters empty the report is shown whole |
| MonthlyReport.FilteredDataIdempotent | components/MonthlyReport.tsx:100-121 | filtering twice is filtering once |
| MonthlyReport.DateRangeInclusive | components/MonthlyReport.tsx:108-118 | from = to = a day keeps a log iff its instant lies between local midnight of that day and the day's last millisecond, inclusive |
| MonthlyReport.ClearFilters | components/MonthlyReport.tsx:123-128 | no filter is active afterwards |
| MonthlyReport.ActiveFilterCount | components/MonthlyReport.tsx:191 | the number of non-empty filters, at most 4, zero iff none is set |
| MonthlyReport.GenerateReport | components/MonthlyReport.tsx:25-35 | the report holds the mapped logs and all four filters are reset |
| MonthlyReport.GenerateReportShowsAll | components/MonthlyReport.tsx:25-35 | right after a period change every log is shown in the table of lines 100-121 |
| MonthlyReport.Insert | components/MonthlyReport.tsx:38 | inserting into a strictly sorted list keeps it strictly sorted, adding exactly the new name |
| MonthlyReport.SortedUnique | components/MonthlyReport.tsx:38 | strictly sorted, holding exactly the input names |
| MonthlyReport.UniquePersons | components/MonthlyReport.tsx:38 | strictly sorted, holding exactly the distinct user names of the report |
| MonthlyReport.UniquePersonsDistinct | components/MonthlyReport.tsx:38 | no name appears twice |
| MonthlyReport.MonthName | components/MonthlyReport.tsx:71-76 | -1 gives "Todo el año", 0..11 the Spanish month names, anything else no name |
| MonthlyReport.StatusText | components/MonthlyReport.tsx:78-85 | the three known statuses get their Spanish text; any other string passes through unchanged |
| MonthlyReport.StatusTextOfStatuses | components/MonthlyReport.tsx:78-85 | PENDING passes through; distinct statuses get distinct texts |
| MonthlyReport.LogRow | components/MonthlyReport.tsx:53-60 | one field per header column: date text, time text, person, backup name, status label, notes |
| MonthlyReport.CsvRows | components/MonthlyReport.tsx:46-61 | six preamble rows (the fifth empty, the sixth the header), then one row per log in order |
| MonthlyReport.ExportCsv | components/MonthlyReport.tsx:40-63 | nothing on an empty report; otherwise the rows joined by `,` and the lines by a newline |
| MonthlyReport.ExportRoundTrip | components/MonthlyReport.tsx:46-63 | when no field holds a newline, one line per row; the generation line reads back as its text; every other non-empty row whose fields hold no comma splits back into its fields |
| MonthlyReport.RowsRoundTrip | components/MonthlyReport.tsx:63 | rows without newlines come back one line each as the row joined by `,`; a row of plain fields splits back into its fields |
| BackupRegistration.AvailableTasks | components/BackupRegistration.tsx:16-18 | the schedules of the unlogged tasks, a subsequence of the tasks' schedules; as many as the dashboard's pending count |
| BackupRegistration.AvailableTasksSnoc | components/BackupRegistration.tsx:16-18 | one more task appends its schedule at the end iff it has no log, which fixes the offered list in task order |
| BackupRegistration.AvailableFromStore | components/BackupRegistration.tsx:16-18 | with the local store's tasks (services/dataService.ts lines 88-99), the offered list equals the due schedules with no log under the day's date, filtered in store order |
| BackupRegistration.HandleSubmit | components/BackupRegistration.tsx:21-36 | nothing without a chosen task; otherwise a log with the chosen schedule, status and notes, the user's id and name, the timestamp, and its date part (a prefix without `T`) |
| BackupRegistration.Submit | components/BackupRegistration.tsx:21-36 | with a chosen task the store gains exactly that log under the new id; without one the store is untouched |
| BackupRegistration.SubmittedTaskIsLogged | components/BackupRegistration.tsx:32-33 | after the save (services/dataService.ts lines 85 and 98), re-deriving the day gives the pending tasks of the chosen schedule the new log and changes no other task |
| AccountProfile.Validate | components/AccountProfile.tsx:24-32 | no error iff the passwords match and have at least 4 characters; a mismatch is reported before the length |
| AccountProfile.MismatchReportedFirst | components/AccountProfile.tsx:24-32 | a short mismatched pair reports the mismatch; a short matching pair reports the length |
| AccountProfile.PasswordForm.constructor | components/AccountProfile.tsx:13-17 | all fields empty, no error, no success |
| AccountProfile.PasswordForm.HandlePasswordChange | components/AccountProfile.tsx:19-48 | flags reset each time; the change is called iff both checks pass; success clears the three fields; failure sets the wrong-password error; a failed check sets its error and keeps the fields |
| AccountProfile.RoleLabel | components/AccountProfile.tsx:96-97 | Administrador iff ADMIN, Técnico iff TECH, Supervisor iff SUPERVISOR |
| AccountProfile.Initials | components/AccountProfile.tsx:61 | the first characters of name and last name, an empty one contributing nothing |
| AdminPanel.StatusStats | components/AdminPanel.tsx:57-61 | the numbers of positions holding a COMPLETED, a WARNING and a FAILED log, each zero iff no such log; together at most the logs, and exactly the logs when none is PENDING |
| AdminPanel.StatusCountsAddUp | components/AdminPanel.tsx:57-61 | the three status counts add up to at most the logs, exactly when none is PENDING |
| AdminPanel.SortNewestFirst | components/AdminPanel.tsx:181 | the array, sorted in place, is newest first and a permutation of the original |
| AdminPanel.InsertLeft | components/AdminPanel.tsx:181 | one insertion step extends the sorted prefix by one, permuting only |
| AdminPanel.StatusLabel | components/AdminPanel.tsx:188 | EXITOSO iff COMPLETED, NOVEDAD iff WARNING, FALLIDO otherwise (FAILED or PENDING) |
| AdminPanel.Rendered | components/AdminPanel.tsx:89 | only the active tab renders (this line and lines 152 and 197); schedules and users only for ADMIN; stats for every role |
| AdminPanel.Panel.constructor | components/AdminPanel.tsx:17-28 | a SUPERVISOR starts on the stats tab, others on the initial tab |
| AdminPanel.Panel.Select | components/AdminPanel.tsx:70-86 | only ADMIN can switch tabs; a supervisor stays on stats |
| AdminPanel.Panel.Panels | components/AdminPanel.tsx:89 | in any state the panel keeps (the supervisor-on-stats invariant), a supervisor's panel renders exactly the statistics and an admin's exactly the active tab (gates also at lines 152 and 197) |
| AdminPanel.SupervisorSeesOnlyStats | components/AdminPanel.tsx:27 | with the gates of lines 89, 152 and 197, a supervisor never sees the schedules or users panel |
| AdminPanel.ScheduleFormDraft | components/AdminPanel.tsx:44-52 | the saved schedule takes the form's fields and has no weekdays |
| AdminPanel.CreatedWeeklyNeverDue | components/AdminPanel.tsx:47-52 | under the local store's WEEKLY rule (services/dataService.ts lines 91-92), a WEEKLY schedule created there is never among the local store's tasks |
| AdminPanel.CreatedDailyAlwaysDue | components/AdminPanel.tsx:47-52 | under the local store's DAILY rule (services/dataService.ts line 90), a DAILY schedule created there is the last task of every day, after the unchanged earlier tasks |
| AdminPanel.UserFormDraft | components/AdminPanel.tsx:30-39 | the saved user takes the form's fields, the password included |
| AdminPanel.CreatedUserCanLogIn | components/AdminPanel.tsx:33-39 | with the login lookup of services/dataService.ts lines 12-14, the created user's credentials log in; they find that user unless an earlier user shares them |

## Left out

- Network, authentication and remote procedures. The hosted service's `login`, `getCurrentUser`, `logout`, `changePassword`, `saveUser` (a sign-up through a second client followed by a one-second wait), `deleteUser`, `deleteSchedule` and `deleteLog` are remote calls. Only their pre- and post-processing is modelled, with answers and success flags as inputs.
- `localStorage` and JSON. Each storage key is an `Option` field of `LocalStore`.
- Random ids. The new id is a parameter, and the store's save methods require it to be fresh.
- Clocks and time zones. `new Date()`, local `getDay` versus UTC `toISOString`, and locale formatting are left out. The model takes the day as `(dateStr, weekday)` and the export's date and time texts as functions. Only the report's date filter models a time zone, as a fixed offset from UTC.
  - Under a positive UTC offset, `toISOString` of local midnight names the previous day. This shifts the hosted service's month bounds and the calendar's keys by one day. The model uses the intended calendar dates.
- `new Date(year, …)` maps years 0..99 to 1900..1999; the model does not.
- Strings. `localeCompare` and the default `sort` stand for code-unit order (a Dafny `char` per character). `length` counts Dafny characters rather than UTF-16 units.
- The React state plumbing, loading flags, timers (the 600 ms and 2 s resets, `setShowPasswordForm`), `confirm`/`alert`, charts, the Blob download and all rendering are left out.
- `App.tsx` and `constants.tsx` are not part of this model, except for the fixture users and schedules.
- The tasks of the hosted derivation drop the `scheduleName` field, as the `BackupLog` type of types.ts has none. The report keeps it in `ReportLog`.
- The dashboard and calendar read the hosted service, while the registration form and the admin panel use the local store. Each screen is modelled against the store it calls.
- SupabaseDataService.PeriodBounds: requires a year in 0..9999. Its exactness over all dates is proved for four-digit years; a year below 1000 prints without padding, as the source does.
- SupabaseDataService.TasksForDate: models the intended CUSTOM filter (see Findings); `TasksForDateAsWritten` is the code as written.
- CalendarView.LoadMonthData: requires a year in 0..9999 and takes the per-day service call as the function `getTasksForDate`, so awaiting and failures of that call are not modelled. Its `ensures` states the full map.
- MonthlyReport.ExportRoundTrip: commas and newlines inside fields are not escaped by the export, so the round trip is stated only for fields without newlines, and field by field only for rows without commas. The generation line, filled from the locale rendering of the current time, usually holds a comma and then reads back as two cells; the lemma states only that its line is its text.
- SupabaseDataService.LogsMap: the logs query has no `order` clause, so the database does not promise an order of its answer. The model takes the answer's order as given, and "the last row wins" refers to that order.
- MonthlyReport.FilteredData: the parsing of timestamps and of `YYYY-MM-DD` fields is abstracted as `Clock.instant` and `Clock.utcMidnight`. The zone offset is one fixed number, so a daylight-saving change between the picked day and a log is not modelled. `FilteredData` reads the range as the local days picked; the code as written shifts it a day early west of UTC (see Findings), which `FilteredDataAsWritten` models.
- AdminPanel.SortNewestFirst: does not state that logs with equal timestamps keep their relative order (the JavaScript sort is stable).
- AccountProfile.PasswordForm.HandlePasswordChange: `changePassword` is not defined in services/dataService.ts, so as written the call throws once both checks pass. The model takes its outcome as the parameter `changePassword`.
- AdminPanel.UserFormDraft: takes the role as a value of the closed enumeration, while the form passes any string cast to a role.

## Findings

| source | as written | input that shows it | evidently intended | confidence | as-written member | corrected member |
|---|---|---|---|---|---|---|
| services/supabaseDataService.ts:430 | the filter compares the frequency against `FrequencyType.CUSTOM`. The enumeration in types.ts:24-28 has no such member, so the comparison is against `undefined` and never holds. A schedule stored with the database's `CUSTOM` frequency (types/database.ts:47) is never due. | a CUSTOM schedule with `days_of_week = [3]`, derived for a Wednesday: no task | CUSTOM schedules are due on the weekdays they list, like WEEKLY ones | not executed | SupabaseDataService.CustomScheduleDropped | SupabaseDataService.TasksForDate |
| components/MonthlyReport.tsx:110-116 | the date fields are parsed with `new Date("YYYY-MM-DD")`, which is midnight UTC, and `setHours` then moves to the start and end of the LOCAL day holding that instant. West of UTC that is the day before the one picked. | at UTC-5, from = to = `2024-01-10` and a log at 2024-01-10 12:00 local (17:00 UTC): the upper bound is 2024-01-09 23:59:59.999 local, so the log is dropped | the range runs from local midnight of the from-day to the last millisecond of the local to-day | not executed | MonthlyReport.ToDayLogDropped | MonthlyReport.DateRangeInclusive |
