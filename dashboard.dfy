/** The operational view of components/Dashboard.tsx: today's counters,
    which task a click opens in the registration form, and undoing a
    registration through the hosted service. */
module Dashboard {

  import opened Types
  import opened Seqs
  import SupabaseDataService

  predicate IsPending(t: Task) {
    t.log.None?
  }

  predicate IsCompleted(t: Task) {
    t.log.Some? && t.log.value.status == Completed
  }

  predicate IsIssue(t: Task) {
    t.log.Some? && (t.log.value.status == Warning || t.log.value.status == BackupStatus.Failed)
  }

  /** `pendingCount`: the tasks still without a log. */
  function PendingCount(tasks: seq<Task>): (n: nat)
    ensures n == |set i | 0 <= i < |tasks| && IsPending(tasks[i])|
    ensures n <= |tasks|
    ensures n == 0 <==> forall i :: 0 <= i < |tasks| ==> tasks[i].log.Some?
  {
    var pending := Filter(tasks, IsPending);
    assert Positions(tasks, IsPending) == set i | 0 <= i < |tasks| && IsPending(tasks[i]);
    assert forall i :: 0 <= i < |tasks| && tasks[i].log.None? ==> tasks[i] in pending;
    |pending|
  }

  /** `completedCount`: the tasks logged COMPLETED. */
  function CompletedCount(tasks: seq<Task>): (n: nat)
    ensures n == |set i | 0 <= i < |tasks| && IsCompleted(tasks[i])|
    ensures n <= |tasks|
    ensures n == 0 <==> forall i :: 0 <= i < |tasks| ==> !IsCompleted(tasks[i])
  {
    var completed := Filter(tasks, IsCompleted);
    assert Positions(tasks, IsCompleted) == set i | 0 <= i < |tasks| && IsCompleted(tasks[i]);
    assert forall i :: 0 <= i < |tasks| && IsCompleted(tasks[i]) ==> tasks[i] in completed;
    |completed|
  }

  /** `issueCount`: the tasks logged WARNING or FAILED. */
  function IssueCount(tasks: seq<Task>): (n: nat)
    ensures n == |set i | 0 <= i < |tasks| && IsIssue(tasks[i])|
    ensures n <= |tasks|
    ensures n == 0 <==> forall i :: 0 <= i < |tasks| ==> !IsIssue(tasks[i])
  {
    var issues := Filter(tasks, IsIssue);
    assert Positions(tasks, IsIssue) == set i | 0 <= i < |tasks| && IsIssue(tasks[i]);
    assert forall i :: 0 <= i < |tasks| && IsIssue(tasks[i]) ==> tasks[i] in issues;
    |issues|
  }

  /** The three counters never count a task twice, so they add up to at
      most the number of tasks; they add up to exactly that number when
      no attached log has the status PENDING. */
  lemma CountsAddUp(tasks: seq<Task>)
    ensures PendingCount(tasks) + CompletedCount(tasks) + IssueCount(tasks) <= |tasks|
    ensures (forall i :: 0 <= i < |tasks| ==> !(tasks[i].log.Some? && tasks[i].log.value.status == BackupStatus.Pending)) ==>
            PendingCount(tasks) + CompletedCount(tasks) + IssueCount(tasks) == |tasks|
  {
    FilterCountsAtMost(tasks, IsPending, IsCompleted, IsIssue);
    if forall i :: 0 <= i < |tasks| ==> !(tasks[i].log.Some? && tasks[i].log.value.status == BackupStatus.Pending) {
      FilterCountsPartition(tasks, IsPending, IsCompleted, IsIssue);
    }
  }

  /** Fixture check: a task logged PENDING falls outside all three
      counters, which is why the equality in `CountsAddUp` needs its
      premise. */
  lemma PendingStatusUncounted()
    ensures var l := BackupLog("l1", "s1", BackupStatus.Pending, "2024-01-01T08:00:00Z", "u1", "Juan Perez", "", "2024-01-01");
            var tasks := [Task(MockSchedules[0], Some(l))];
            PendingCount(tasks) + CompletedCount(tasks) + IssueCount(tasks) == 0
  {
    var l := BackupLog("l1", "s1", BackupStatus.Pending, "2024-01-01T08:00:00Z", "u1", "Juan Perez", "", "2024-01-01");
    var t := Task(MockSchedules[0], Some(l));
    assert [t][1..] == [];
    assert Filter([t], IsPending) == [];
    assert Filter([t], IsCompleted) == [];
    assert Filter([t], IsIssue) == [];
  }

  /** Clicking a task opens the registration form for its schedule, and
      only while the task has no log. */
  function Click(t: Task): (target: Option<string>)
    ensures target.Some? <==> IsPending(t)
    ensures target.Some? ==> target.value == t.schedule.id
  {
    if t.log.None? then Some(t.schedule.id) else None
  }

  /** The clickable tasks are exactly the ones `pendingCount` counts. */
  lemma ClickableArePending(tasks: seq<Task>)
    ensures PendingCount(tasks) == |Filter(tasks, (t: Task) => Click(t).Some?)|
  {
    FilterSameTest(tasks, IsPending, (t: Task) => Click(t).Some?);
  }

  lemma {:induction false} FilterSameTest(tasks: seq<Task>, p: Task -> bool, q: Task -> bool)
    requires forall t :: p(t) == q(t)
    ensures Filter(tasks, p) == Filter(tasks, q)
    decreases |tasks|
  {
    if tasks != [] {
      FilterSameTest(tasks[1..], p, q);
    }
  }

  // ---------------------------------------------------------------------
  // Undo

  /** The logs table after `deleteLog(logId)`:
      `delete().eq('id', logId)` removes every row with that id. */
  function DeleteRow(table: seq<SupabaseDataService.JoinedLog>, logId: string): (r: seq<SupabaseDataService.JoinedLog>)
    ensures forall j :: j in r <==> j in table && j.row.id != logId
    ensures |r| == |set k | 0 <= k < |table| && table[k].row.id != logId|
    ensures Subseq(r, table)
  {
    var keep := (j: SupabaseDataService.JoinedLog) => j.row.id != logId;
    assert Positions(table, keep) == set k | 0 <= k < |table| && table[k].row.id != logId;
    Filter(table, keep)
  }

  /** The due schedules do not depend on the logs: two derivations for
      the same day from the same schedules list the same schedules in
      the same order. */
  lemma SameSchedules(schedules: SupabaseDataService.Query<SupabaseDataService.ScheduleRow>,
                      table1: seq<SupabaseDataService.JoinedLog>, table2: seq<SupabaseDataService.JoinedLog>,
                      day: Day)
    ensures var before := SupabaseDataService.TasksForDate(schedules, SupabaseDataService.Rows(table1), day);
            var after := SupabaseDataService.TasksForDate(schedules, SupabaseDataService.Rows(table2), day);
            |before| == |after| && forall i :: 0 <= i < |before| ==> before[i].schedule == after[i].schedule
  {
  }

  /** `handleUndo`: after the log shown for a task is deleted and the
      day is derived again, the same task comes back without a log
      exactly when that log was the only row for its schedule on that
      day; otherwise the last remaining such row is shown instead. */
  lemma UndoMakesPending(schedules: SupabaseDataService.Query<SupabaseDataService.ScheduleRow>,
                         table: seq<SupabaseDataService.JoinedLog>, day: Day, i: int)
    requires var before := SupabaseDataService.TasksForDate(schedules, SupabaseDataService.Rows(table), day);
             0 <= i < |before| && before[i].log.Some?
    ensures var before := SupabaseDataService.TasksForDate(schedules, SupabaseDataService.Rows(table), day);
            var logId := before[i].log.value.id;
            var after := SupabaseDataService.TasksForDate(schedules, SupabaseDataService.Rows(DeleteRow(table, logId)), day);
            var sid := before[i].schedule.id;
            i < |after| && after[i].schedule == before[i].schedule &&
            (after[i].log.None? <==>
               forall k :: 0 <= k < |table| && table[k].row.scheduleId == sid && table[k].row.dateStr == day.dateStr ==>
                 table[k].row.id == logId)
  {
    var before := SupabaseDataService.TasksForDate(schedules, SupabaseDataService.Rows(table), day);
    var logId := before[i].log.value.id;
    var rest := DeleteRow(table, logId);
    SameSchedules(schedules, table, rest, day);
    LastRowAfterDelete(table, logId, before[i].schedule.id, day.dateStr);
  }

  /** Once the rows with `logId` are gone, a schedule has no row left on
      a day exactly when every row it had that day carried `logId`. */
  lemma LastRowAfterDelete(table: seq<SupabaseDataService.JoinedLog>, logId: string, sid: string, dateStr: string)
    ensures SupabaseDataService.LastRowOn(DeleteRow(table, logId), sid, dateStr).None? <==>
            forall k :: 0 <= k < |table| && table[k].row.scheduleId == sid && table[k].row.dateStr == dateStr ==>
              table[k].row.id == logId
  {
    var onDay := (j: SupabaseDataService.JoinedLog) => j.row.scheduleId == sid && j.row.dateStr == dateStr;
    var keep := (j: SupabaseDataService.JoinedLog) => j.row.id != logId;
    FindLastFilter(table, keep, onDay, (j: SupabaseDataService.JoinedLog) => keep(j) && onDay(j));
  }
}
