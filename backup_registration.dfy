/** The registration form of components/BackupRegistration.tsx: which of
    today's tasks it offers, and the log a submission files through the
    local store. */
module BackupRegistration {

  import opened Types
  import opened Seqs
  import opened Strings
  import DataService
  import Dashboard

  /** `availableTasks`: the schedules of the tasks that have no log yet,
      in the order the tasks come in. */
  function AvailableTasks(tasks: seq<Task>): (r: seq<BackupSchedule>)
    ensures |r| == Dashboard.PendingCount(tasks)
    ensures Subseq(r, Map(tasks, ScheduleOf))
    ensures forall s :: s in r <==> exists i :: 0 <= i < |tasks| && tasks[i].log.None? && tasks[i].schedule == s
  {
    var pending := Filter(tasks, Dashboard.IsPending);
    MapSubseq(pending, tasks, ScheduleOf);
    PendingSchedules(tasks, pending);
    Map(pending, ScheduleOf)
  }

  /** A schedule belongs to a pending task exactly when it is the
      schedule of an element of the pending tasks. */
  lemma PendingSchedules(tasks: seq<Task>, pending: seq<Task>)
    requires forall t :: t in pending <==> t in tasks && t.log.None?
    ensures forall s :: s in Map(pending, ScheduleOf) <==>
              exists i :: 0 <= i < |tasks| && tasks[i].log.None? && tasks[i].schedule == s
  {
    var r := Map(pending, ScheduleOf);
    forall s | s in r
      ensures exists i :: 0 <= i < |tasks| && tasks[i].log.None? && tasks[i].schedule == s
    {
      var j :| 0 <= j < |r| && r[j] == s;
      assert pending[j] in tasks;
      var i :| 0 <= i < |tasks| && tasks[i] == pending[j];
    }
    forall i | 0 <= i < |tasks| && tasks[i].log.None?
      ensures tasks[i].schedule in r
    {
      assert tasks[i] in pending;
      var j :| 0 <= j < |pending| && pending[j] == tasks[i];
      assert r[j] == tasks[i].schedule;
    }
  }

  /** One more task adds its schedule at the end exactly when it has no
      log; with `AvailableTasks([]) == []` this fixes the offered list and
      its order for every task list. */
  lemma AvailableTasksSnoc(tasks: seq<Task>, t: Task)
    ensures AvailableTasks(tasks + [t]) == AvailableTasks(tasks) + (if t.log.None? then [t.schedule] else [])
  {
    FilterAppend(tasks, [t], Dashboard.IsPending);
    assert Filter([t], Dashboard.IsPending) == if t.log.None? then [t] else [];
    MapAppend(Filter(tasks, Dashboard.IsPending), Filter([t], Dashboard.IsPending), ScheduleOf);
  }

  /** Against the local store, the form offers exactly the due schedules
      that have no log under the day's date string, in store order. */
  lemma AvailableFromStore(schedules: seq<BackupSchedule>, logs: seq<BackupLog>, day: Day)
    ensures forall s :: s in AvailableTasks(DataService.TasksForDate(schedules, logs, day)) <==>
                        s in DataService.DueSchedules(schedules, day.weekday) &&
                        DataService.FirstLogFor(logs, s.id, day.dateStr).None?
    ensures AvailableTasks(DataService.TasksForDate(schedules, logs, day)) ==
            Filter(DataService.DueSchedules(schedules, day.weekday),
                   (s: BackupSchedule) => DataService.FirstLogFor(logs, s.id, day.dateStr).None?)
  {
    var tasks := DataService.TasksForDate(schedules, logs, day);
    var due := DataService.DueSchedules(schedules, day.weekday);
    var toTask := (s: BackupSchedule) => DataService.TaskFor(logs, day, s);
    assert Map(due, toTask) == tasks;
    FilterThroughMap(due, toTask, ScheduleOf, Dashboard.IsPending,
                     (s: BackupSchedule) => DataService.FirstLogFor(logs, s.id, day.dateStr).None?);
    forall s | s in due && DataService.FirstLogFor(logs, s.id, day.dateStr).None?
      ensures s in AvailableTasks(tasks)
    {
      var i :| 0 <= i < |due| && due[i] == s;
      assert tasks[i].schedule == s && tasks[i].log.None?;
    }
  }

  /** The form's state: the chosen task (`''` while none is chosen), the
      status, which starts as COMPLETED, and the notes. */
  datatype Form = Form(selectedTaskId: string, status: BackupStatus, notes: string)

  const InitialForm: Form := Form("", Completed, "")

  /** `handleSubmit`: nothing without a chosen task, otherwise the log
      handed to `saveLog`, stamped with the submission instant `now` (an
      ISO timestamp) and filed under its date part. */
  function HandleSubmit(form: Form, user: User, now: string): (r: Option<LogDraft>)
    ensures r.None? <==> form.selectedTaskId == ""
    ensures r.Some? ==> r.value.scheduleId == form.selectedTaskId && r.value.status == form.status &&
                        r.value.notes == form.notes
    ensures r.Some? ==> r.value.userId == user.id && r.value.userName == user.name && r.value.timestamp == now
    ensures r.Some? ==> r.value.dateStr == Split(now, 'T')[0] && r.value.dateStr <= now && 'T' !in r.value.dateStr
  {
    if form.selectedTaskId == "" then None
    else
      DatePartIsFirstSplit(now);
      Some(LogDraft(form.selectedTaskId, form.status, now, user.id, user.name, form.notes, DatePart(now)))
  }

  /** Submitting through the store: the log is appended under the fresh
      id, and an empty choice leaves the store alone. */
  method Submit(store: DataService.LocalStore, form: Form, user: User, now: string, id: string)
    returns (saved: Option<BackupLog>)
    requires forall i :: 0 <= i < |store.Logs()| ==> store.Logs()[i].id != id
    modifies store`logsKey
    ensures saved.None? <==> form.selectedTaskId == ""
    ensures saved.None? ==> store.logsKey == old(store.logsKey)
    ensures saved.Some? ==> saved.value == LogWithId(HandleSubmit(form, user, now).value, id) &&
                            store.Logs() == old(store.Logs()) + [saved.value]
  {
    var draft := HandleSubmit(form, user, now);
    if draft.None? {
      return None;
    }
    var l := store.SaveLog(draft.value, id);
    saved := Some(l);
  }

  /** After a submission, deriving the same day again (its date string is
      the date part of the submission instant) attaches the new log to
      the pending tasks of the chosen schedule and changes no other task. */
  lemma SubmittedTaskIsLogged(schedules: seq<BackupSchedule>, logs: seq<BackupLog>, day: Day,
                              form: Form, user: User, now: string, id: string)
    requires form.selectedTaskId != ""
    requires day.dateStr == DatePart(now)
    ensures var l := LogWithId(HandleSubmit(form, user, now).value, id);
            var before := DataService.TasksForDate(schedules, logs, day);
            var after := DataService.TasksForDate(schedules, logs + [l], day);
            |after| == |before| &&
            forall i :: 0 <= i < |before| ==>
              after[i] == if before[i].log.None? && before[i].schedule.id == form.selectedTaskId
                          then Task(before[i].schedule, Some(l)) else before[i]
  {
    var l := LogWithId(HandleSubmit(form, user, now).value, id);
    var before := DataService.TasksForDate(schedules, logs, day);
    var after := DataService.TasksForDate(schedules, logs + [l], day);
    forall i | 0 <= i < |before|
      ensures after[i] == if before[i].log.None? && before[i].schedule.id == form.selectedTaskId
                          then Task(before[i].schedule, Some(l)) else before[i]
    {
      DataService.FirstLogAfterAppend(logs, l, before[i].schedule.id, day.dateStr);
    }
  }
}
