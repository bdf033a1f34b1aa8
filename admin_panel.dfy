/** The administration screen of components/AdminPanel.tsx: the status
    chart, the activity list sorted in place by timestamp, the status
    label, the tabs each role may see, and the records its two forms
    hand to the local store. */
module AdminPanel {

  import opened Types
  import opened Seqs
  import opened Strings
  import DataService

  // ---------------------------------------------------------------------
  // Status chart

  predicate IsCompletedLog(l: BackupLog) {
    l.status == Completed
  }

  predicate IsWarningLog(l: BackupLog) {
    l.status == Warning
  }

  predicate IsFailedLog(l: BackupLog) {
    l.status == BackupStatus.Failed
  }

  datatype StatusStat = StatusStat(name: string, value: nat, color: string)

  /** `statusStats`: the COMPLETED, WARNING and FAILED logs counted
      separately; together they count each log at most once, and every
      log when none is PENDING. */
  function StatusStats(logs: seq<BackupLog>): (r: seq<StatusStat>)
    ensures |r| == 3
    ensures r[0].name == "Completados" && r[1].name == "Novedades" && r[2].name == "Fallidos"
    ensures r[0].value == |Positions(logs, IsCompletedLog)|
    ensures r[1].value == |Positions(logs, IsWarningLog)|
    ensures r[2].value == |Positions(logs, IsFailedLog)|
    ensures r[0].value == 0 <==> forall i :: 0 <= i < |logs| ==> !IsCompletedLog(logs[i])
    ensures r[1].value == 0 <==> forall i :: 0 <= i < |logs| ==> !IsWarningLog(logs[i])
    ensures r[2].value == 0 <==> forall i :: 0 <= i < |logs| ==> !IsFailedLog(logs[i])
    ensures r[0].value + r[1].value + r[2].value <= |logs|
    ensures (forall i :: 0 <= i < |logs| ==> logs[i].status != Pending) ==>
            r[0].value + r[1].value + r[2].value == |logs|
  {
    var completed := Filter(logs, IsCompletedLog);
    var warnings := Filter(logs, IsWarningLog);
    var failed := Filter(logs, IsFailedLog);
    FilterEmpty(logs, IsCompletedLog);
    FilterEmpty(logs, IsWarningLog);
    FilterEmpty(logs, IsFailedLog);
    StatusCountsAddUp(logs);
    [StatusStat("Completados", |completed|, "#22c55e"),
     StatusStat("Novedades", |warnings|, "#eab308"),
     StatusStat("Fallidos", |failed|, "#ef4444")]
  }

  lemma StatusCountsAddUp(logs: seq<BackupLog>)
    ensures |Filter(logs, IsCompletedLog)| + |Filter(logs, IsWarningLog)| + |Filter(logs, IsFailedLog)| <= |logs|
    ensures (forall i :: 0 <= i < |logs| ==> logs[i].status != Pending) ==>
            |Filter(logs, IsCompletedLog)| + |Filter(logs, IsWarningLog)| + |Filter(logs, IsFailedLog)| == |logs|
  {
    FilterCountsAtMost(logs, IsCompletedLog, IsWarningLog, IsFailedLog);
    if forall i :: 0 <= i < |logs| ==> logs[i].status != Pending {
      FilterCountsPartition(logs, IsCompletedLog, IsWarningLog, IsFailedLog);
    }
  }

  // ---------------------------------------------------------------------
  // Activity list

  /** Newest first: timestamps never increase along the list. */
  predicate SortedNewestFirst(s: seq<BackupLog>) {
    forall i, j :: 0 <= i < j < |s| ==> LexLe(s[j].timestamp, s[i].timestamp)
  }

  /** `logs.sort((a, b) => b.timestamp.localeCompare(a.timestamp))`,
      which reorders the panel's own array: an insertion sort that moves
      each log left past the older ones. */
  method SortNewestFirst(a: array<BackupLog>)
    modifies a
    ensures SortedNewestFirst(a[..])
    ensures multiset(a[..]) == multiset(old(a[..]))
  {
    var i := 0;
    while i < a.Length
      invariant 0 <= i <= a.Length
      invariant SortedNewestFirst(a[..i])
      invariant multiset(a[..]) == multiset(old(a[..]))
    {
      InsertLeft(a, i);
      i := i + 1;
    }
    assert a[..i] == a[..];
  }

  /** One insertion step: `a[i]` moves left past the logs older than it,
      after which the first `i + 1` logs are newest first. */
  method InsertLeft(a: array<BackupLog>, i: int)
    requires 0 <= i < a.Length
    requires SortedNewestFirst(a[..i])
    modifies a
    ensures SortedNewestFirst(a[..i + 1])
    ensures multiset(a[..]) == multiset(old(a[..]))
  {
    var j := i;
    while j > 0 && LexLt(a[j - 1].timestamp, a[j].timestamp)
      invariant 0 <= j <= i
      invariant forall k, l :: 0 <= k < l <= i && k != j && l != j ==> LexLe(a[l].timestamp, a[k].timestamp)
      invariant forall l :: j < l <= i ==> LexLe(a[l].timestamp, a[j].timestamp)
      invariant multiset(a[..]) == multiset(old(a[..]))
      decreases j
    {
      SwapDown(a, j);
      j := j - 1;
    }
    if j > 0 {
      LexLeTotal(a[j].timestamp, a[j - 1].timestamp);
      forall k | 0 <= k < j - 1
        ensures LexLe(a[j].timestamp, a[k].timestamp)
      {
        LexLeTransitive(a[j].timestamp, a[j - 1].timestamp, a[k].timestamp);
      }
    }
  }

  /** Exchanges `a[j - 1]` and `a[j]`, keeping the same logs. */
  method SwapDown(a: array<BackupLog>, j: int)
    requires 0 < j < a.Length
    modifies a
    ensures a[..] == old(a[..])[j - 1 := old(a[j])][j := old(a[j - 1])]
    ensures multiset(a[..]) == multiset(old(a[..]))
  {
    a[j - 1], a[j] := a[j], a[j - 1];
  }

  /** The badge of each activity entry; a PENDING log shows as failed. */
  function StatusLabel(s: BackupStatus): (text: string)
    ensures text == "EXITOSO" <==> s == Completed
    ensures text == "NOVEDAD" <==> s == Warning
    ensures text == "FALLIDO" <==> s == BackupStatus.Failed || s == Pending
  {
    match s
    case Completed => "EXITOSO"
    case Warning => "NOVEDAD"
    case _ => "FALLIDO"
  }

  // ---------------------------------------------------------------------
  // Tabs

  datatype Tab = SchedulesTab | StatsTab | UsersTab

  /** The panels rendered for a role and an active tab: the schedules
      and users panels only for ADMIN, the statistics for any role. */
  function Rendered(role: UserRole, tab: Tab): (panels: set<Tab>)
    ensures panels <= {tab}
    ensures StatsTab in panels <==> tab == StatsTab
    ensures SchedulesTab in panels <==> tab == SchedulesTab && role == Admin
    ensures UsersTab in panels <==> tab == UsersTab && role == Admin
  {
    if tab == StatsTab || role == Admin then {tab} else {}
  }

  /** The panel's role and active tab. Only ADMIN gets the tab buttons;
      loading the panel for a SUPERVISOR switches to the statistics. */
  class Panel {
    const role: UserRole
    var activeTab: Tab

    /** A supervisor is always on the statistics tab. */
    predicate Valid()
      reads this
    {
      role == Supervisor ==> activeTab == StatsTab
    }

    /** The first render with `initialTab`, then the load effect. */
    constructor (role: UserRole, initialTab: Tab)
      ensures this.role == role
      ensures activeTab == if role == Supervisor then StatsTab else initialTab
      ensures Valid()
    {
      this.role := role;
      activeTab := if role == Supervisor then StatsTab else initialTab;
    }

    /** The panels this panel renders now: a supervisor's panel shows the
        statistics and nothing else, an admin's the active tab. */
    function Panels(): (panels: set<Tab>)
      requires Valid()
      reads this
      ensures role == Supervisor ==> panels == {StatsTab}
      ensures role == Admin ==> panels == {activeTab}
      ensures panels <= {activeTab}
    {
      Rendered(role, activeTab)
    }

    /** A tab button; the buttons exist only for ADMIN. */
    method Select(tab: Tab)
      requires Valid()
      modifies this
      ensures activeTab == if role == Admin then tab else old(activeTab)
      ensures Valid()
    {
      if role == Admin {
        activeTab := tab;
      }
    }
  }

  /** A supervisor's panel, whatever it was opened with, renders the
      statistics and nothing else. */
  lemma SupervisorSeesOnlyStats(tab: Tab)
    ensures Rendered(Supervisor, tab) <= {StatsTab}
  {
  }

  // ---------------------------------------------------------------------
  // Forms

  /** The schedule `handleCreateSchedule` saves: the form has no field
      for the weekdays, so none are stored. */
  function ScheduleFormDraft(name: string, frequency: FrequencyType, kind: BackupType, description: string)
    : (d: ScheduleDraft)
    ensures d.daysOfWeek.None?
    ensures d.name == name && d.frequency == frequency && d.kind == kind && d.description == description
  {
    ScheduleDraft(name, kind, frequency, None, description)
  }

  /** A WEEKLY schedule created in the panel is never among the local
      store's tasks, on any day. */
  lemma CreatedWeeklyNeverDue(schedules: seq<BackupSchedule>, logs: seq<BackupLog>, day: Day,
                              name: string, kind: BackupType, description: string, id: string)
    ensures var s := ScheduleWithId(ScheduleFormDraft(name, Weekly, kind, description), id);
            var tasks := DataService.TasksForDate(schedules + [s], logs, day);
            forall i :: 0 <= i < |tasks| ==> tasks[i].schedule != s
  {
    var s := ScheduleWithId(ScheduleFormDraft(name, Weekly, kind, description), id);
    var tasks := DataService.TasksForDate(schedules + [s], logs, day);
    forall i | 0 <= i < |tasks|
      ensures tasks[i].schedule != s
    {
      assert tasks[i].schedule in DataService.DueSchedules(schedules + [s], day.weekday);
    }
  }

  /** A DAILY schedule created in the panel is the last task of every
      day, after the tasks that were there before. */
  lemma {:induction false} CreatedDailyAlwaysDue(schedules: seq<BackupSchedule>, logs: seq<BackupLog>, day: Day,
                                                 name: string, kind: BackupType, description: string, id: string)
    ensures var s := ScheduleWithId(ScheduleFormDraft(name, Daily, kind, description), id);
            var before := DataService.TasksForDate(schedules, logs, day);
            var after := DataService.TasksForDate(schedules + [s], logs, day);
            |after| == |before| + 1 && after[..|before|] == before && after[|before|].schedule == s
  {
    var s := ScheduleWithId(ScheduleFormDraft(name, Daily, kind, description), id);
    var due := (x: BackupSchedule) => DataService.DueOn(x, day.weekday);
    FilterAppend(schedules, [s], due);
    assert [s][1..] == [];
    assert Filter([s], due) == [s];
    assert DataService.DueSchedules(schedules + [s], day.weekday) ==
           DataService.DueSchedules(schedules, day.weekday) + [s];
    var before := DataService.TasksForDate(schedules, logs, day);
    var after := DataService.TasksForDate(schedules + [s], logs, day);
    assert after[..|before|] == before;
  }

  /** The user `handleCreateUser` saves, with the password typed in. */
  function UserFormDraft(name: string, lastName: string, email: string, password: string, role: UserRole)
    : (d: UserDraft)
    ensures d.password == Some(password)
    ensures d.name == name && d.lastName == lastName && d.email == email && d.role == role
  {
    UserDraft(name, lastName, email, Some(password), role)
  }

  /** A user created in the panel can log in with the email and password
      typed in; the login finds that user unless an earlier user has the
      same credentials. */
  lemma CreatedUserCanLogIn(users: seq<User>, name: string, lastName: string, email: string,
                            password: string, role: UserRole, id: string)
    ensures var u := UserWithId(UserFormDraft(name, lastName, email, password, role), id);
            var found := DataService.FindUser(users + [u], email, password);
            found.Some? &&
            found == if DataService.FindUser(users, email, password).Some?
                     then DataService.FindUser(users, email, password) else Some(u)
  {
    var u := UserWithId(UserFormDraft(name, lastName, email, password, role), id);
    FindAppend(users, u, (x: User) => DataService.Credentials(x, email, password));
  }
}
