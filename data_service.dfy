/** The browser-local store of services/dataService.ts: three lists
    kept under their own storage keys, a current-user slot, and the
    derivation of a day's tasks from the stored schedules and logs. */
module DataService {

  import opened Types
  import opened Seqs

  // ---------------------------------------------------------------------
  // Task derivation (dataService.ts getTasksForDate)

  /** DAILY is due every day; WEEKLY and SPECIFIC_DAYS on the weekdays
      listed in `daysOfWeek`; anything else never. */
  predicate DueOn(s: BackupSchedule, weekday: int) {
    match s.frequency
    case Daily => true
    case Weekly => s.daysOfWeek.Some? && weekday in s.daysOfWeek.value
    case SpecificDays => s.daysOfWeek.Some? && weekday in s.daysOfWeek.value
    case Custom => false
  }

  function DueSchedules(schedules: seq<BackupSchedule>, weekday: int): (r: seq<BackupSchedule>)
    ensures Subseq(r, schedules)
    ensures |r| == |set i | 0 <= i < |schedules| && DueOn(schedules[i], weekday)|
    ensures forall s :: s in r <==>
      s in schedules &&
      (s.frequency == Daily ||
       ((s.frequency == Weekly || s.frequency == SpecificDays) &&
        s.daysOfWeek.Some? && weekday in s.daysOfWeek.value))
  {
    var due := (s: BackupSchedule) => DueOn(s, weekday);
    assert Positions(schedules, due) == set i | 0 <= i < |schedules| && DueOn(schedules[i], weekday);
    Filter(schedules, due)
  }

  predicate LogIsFor(l: BackupLog, scheduleId: string, dateStr: string) {
    l.scheduleId == scheduleId && l.dateStr == dateStr
  }

  /** `logs.find(...)`: the first log in store order filed for that
      schedule on that date. */
  function FirstLogFor(logs: seq<BackupLog>, scheduleId: string, dateStr: string): (r: Option<BackupLog>)
    ensures r.None? <==> forall i :: 0 <= i < |logs| ==> !LogIsFor(logs[i], scheduleId, dateStr)
    ensures r.Some? ==> exists i :: 0 <= i < |logs| && logs[i] == r.value &&
                                   LogIsFor(logs[i], scheduleId, dateStr) &&
                                   forall j :: 0 <= j < i ==> !LogIsFor(logs[j], scheduleId, dateStr)
  {
    Find(logs, (l: BackupLog) => LogIsFor(l, scheduleId, dateStr))
  }

  function TaskFor(logs: seq<BackupLog>, day: Day, s: BackupSchedule): Task {
    Task(s, FirstLogFor(logs, s.id, day.dateStr))
  }

  /** One task per due schedule, in store order, each with the first log
      filed for it under the day's date string. */
  function TasksForDate(schedules: seq<BackupSchedule>, logs: seq<BackupLog>, day: Day): (r: seq<Task>)
    ensures |r| == |DueSchedules(schedules, day.weekday)| <= |schedules|
    ensures forall i :: 0 <= i < |r| ==>
      r[i].schedule == DueSchedules(schedules, day.weekday)[i] &&
      r[i].log == FirstLogFor(logs, r[i].schedule.id, day.dateStr)
    ensures forall i :: 0 <= i < |r| && r[i].log.Some? ==>
      r[i].log.value in logs && LogIsFor(r[i].log.value, r[i].schedule.id, day.dateStr)
  {
    Map(DueSchedules(schedules, day.weekday), (s: BackupSchedule) => TaskFor(logs, day, s))
  }

  /** A schedule without `daysOfWeek` is due on no day unless it is
      DAILY, whatever its frequency says. */
  lemma {:induction false} NoDaysOnlyDaily(schedules: seq<BackupSchedule>, day: Day, i: int)
    requires 0 <= i < |TasksForDate(schedules, [], day)|
    requires TasksForDate(schedules, [], day)[i].schedule.daysOfWeek.None?
    ensures TasksForDate(schedules, [], day)[i].schedule.frequency == Daily
  {
    var s := TasksForDate(schedules, [], day)[i].schedule;
    assert s in DueSchedules(schedules, day.weekday);
  }

  // ---------------------------------------------------------------------
  // Authentication and deletion as list operations

  predicate Credentials(u: User, email: string, pass: string) {
    u.email == email && u.password == Some(pass)
  }

  /** `users.find(u => u.email === email && u.password === pass)`; a user
      stored without a password never matches. */
  function FindUser(users: seq<User>, email: string, pass: string): (r: Option<User>)
    ensures r.None? <==> forall i :: 0 <= i < |users| ==> !Credentials(users[i], email, pass)
    ensures r.Some? ==> exists i :: 0 <= i < |users| && users[i] == r.value &&
                                   Credentials(users[i], email, pass) &&
                                   forall j :: 0 <= j < i ==> !Credentials(users[j], email, pass)
  {
    Find(users, (u: User) => Credentials(u, email, pass))
  }

  /** `logs.filter(l => l.id !== logId)`. */
  function RemoveLog(logs: seq<BackupLog>, logId: string): (r: seq<BackupLog>)
    ensures Subseq(r, logs)
    ensures forall l :: l in r <==> l in logs && l.id != logId
    ensures |r| == |set i | 0 <= i < |logs| && logs[i].id != logId|
  {
    var keep := (l: BackupLog) => l.id != logId;
    assert Positions(logs, keep) == set i | 0 <= i < |logs| && logs[i].id != logId;
    Filter(logs, keep)
  }

  lemma {:induction false} RemoveAbsentLog(logs: seq<BackupLog>, logId: string)
    requires forall i :: 0 <= i < |logs| ==> logs[i].id != logId
    ensures RemoveLog(logs, logId) == logs
  {
    FilterKeepsAll(logs, (l: BackupLog) => l.id != logId);
  }

  lemma {:induction false} RemoveLogIdempotent(logs: seq<BackupLog>, logId: string)
    ensures RemoveLog(RemoveLog(logs, logId), logId) == RemoveLog(logs, logId)
  {
    FilterIdempotent(logs, (l: BackupLog) => l.id != logId);
  }

  /** Appending a log leaves the first match for every other
      (schedule, date) pair alone, and gives an unmatched pair the new
      log when it is filed under that pair. */
  lemma {:induction false} FirstLogAfterAppend(logs: seq<BackupLog>, l: BackupLog, scheduleId: string, dateStr: string)
    ensures FirstLogFor(logs + [l], scheduleId, dateStr) ==
            if FirstLogFor(logs, scheduleId, dateStr).Some? then FirstLogFor(logs, scheduleId, dateStr)
            else if LogIsFor(l, scheduleId, dateStr) then Some(l) else None
  {
    FindAppend(logs, l, (x: BackupLog) => LogIsFor(x, scheduleId, dateStr));
  }

  // ---------------------------------------------------------------------
  // The store

  /** Each `*_KEY` entry of localStorage is absent (None) or holds the
      list last written under it. */
  class LocalStore {
    var usersKey: Option<seq<User>>
    var schedulesKey: Option<seq<BackupSchedule>>
    var logsKey: Option<seq<BackupLog>>
    var currentUserKey: Option<User>

    /** An empty localStorage. */
    constructor ()
      ensures usersKey == None && schedulesKey == None && logsKey == None && currentUserKey == None
      ensures Users() == MockUsers && Schedules() == MockSchedules && Logs() == []
    {
      usersKey, schedulesKey, logsKey, currentUserKey := None, None, None, None;
    }

    /** getUsers: the stored list, or MOCK_USERS when nothing is stored. */
    function Users(): seq<User>
      reads this
    {
      usersKey.GetOr(MockUsers)
    }

    function Schedules(): seq<BackupSchedule>
      reads this
    {
      schedulesKey.GetOr(MockSchedules)
    }

    function Logs(): seq<BackupLog>
      reads this
    {
      logsKey.GetOr([])
    }

    method GetUsers() returns (r: seq<User>)
      ensures usersKey.None? ==> r == MockUsers
      ensures usersKey.Some? ==> r == usersKey.value
    {
      r := if usersKey.Some? then usersKey.value else MockUsers;
    }

    method GetSchedules() returns (r: seq<BackupSchedule>)
      ensures schedulesKey.None? ==> r == MockSchedules
      ensures schedulesKey.Some? ==> r == schedulesKey.value
    {
      r := if schedulesKey.Some? then schedulesKey.value else MockSchedules;
    }

    method GetLogs() returns (r: seq<BackupLog>)
      ensures logsKey.None? ==> r == []
      ensures logsKey.Some? ==> r == logsKey.value
    {
      r := if logsKey.Some? then logsKey.value else [];
    }

    /** The first user with that email and password becomes the current
        user; without one nothing is recorded. */
    method Login(email: string, pass: string) returns (r: Option<User>)
      modifies this`currentUserKey
      ensures r == FindUser(Users(), email, pass)
      ensures currentUserKey == if r.Some? then r else old(currentUserKey)
    {
      var users := GetUsers();
      r := FindUser(users, email, pass);
      if r.Some? {
        currentUserKey := r;
      }
    }

    method GetCurrentUser() returns (r: Option<User>)
      ensures r == currentUserKey
    {
      r := currentUserKey;
    }

    method Logout()
      modifies this`currentUserKey
      ensures currentUserKey == None
    {
      currentUserKey := None;
    }

    /** Appends the draft under a fresh id and stores the whole list. */
    method SaveUser(draft: UserDraft, id: string) returns (u: User)
      requires forall i :: 0 <= i < |Users()| ==> Users()[i].id != id
      modifies this`usersKey
      ensures u == UserWithId(draft, id)
      ensures usersKey == Some(old(Users()) + [u])
      ensures |Users()| == |old(Users())| + 1 && Users()[..|old(Users())|] == old(Users())
    {
      var users := GetUsers();
      u := UserWithId(draft, id);
      usersKey := Some(users + [u]);
      assert Users()[..|users|] == users;
    }

    method SaveSchedule(draft: ScheduleDraft, id: string) returns (s: BackupSchedule)
      requires forall i :: 0 <= i < |Schedules()| ==> Schedules()[i].id != id
      modifies this`schedulesKey
      ensures s == ScheduleWithId(draft, id)
      ensures schedulesKey == Some(old(Schedules()) + [s])
      ensures |Schedules()| == |old(Schedules())| + 1 && Schedules()[..|old(Schedules())|] == old(Schedules())
    {
      var schedules := GetSchedules();
      s := ScheduleWithId(draft, id);
      schedulesKey := Some(schedules + [s]);
      assert Schedules()[..|schedules|] == schedules;
    }

    method SaveLog(draft: LogDraft, id: string) returns (l: BackupLog)
      requires forall i :: 0 <= i < |Logs()| ==> Logs()[i].id != id
      modifies this`logsKey
      ensures l == LogWithId(draft, id)
      ensures logsKey == Some(old(Logs()) + [l])
      ensures |Logs()| == |old(Logs())| + 1 && Logs()[..|old(Logs())|] == old(Logs())
    {
      var logs := GetLogs();
      l := LogWithId(draft, id);
      logsKey := Some(logs + [l]);
      assert Logs()[..|logs|] == logs;
    }

    /** Stores the logs without those carrying `logId`; an empty store
        becomes an explicitly empty list. */
    method DeleteLog(logId: string)
      modifies this`logsKey
      ensures logsKey == Some(RemoveLog(old(Logs()), logId))
    {
      var logs := GetLogs();
      logsKey := Some(RemoveLog(logs, logId));
    }

    method GetTasksForDate(day: Day) returns (r: seq<Task>)
      ensures r == TasksForDate(Schedules(), Logs(), day)
    {
      var schedules := GetSchedules();
      var logs := GetLogs();
      r := TasksForDate(schedules, logs, day);
    }
  }

  // ---------------------------------------------------------------------
  // Fixture checks

  /** With nothing stored, a Monday lists both mock schedules as pending
      and any other weekday only the daily one. */
  lemma MockTasks(dateStr: string)
    ensures TasksForDate(MockSchedules, [], Day(dateStr, 1)) ==
            [Task(MockSchedules[0], None), Task(MockSchedules[1], None)]
    ensures forall w: Weekday :: w != 1 ==>
            TasksForDate(MockSchedules, [], Day(dateStr, w)) == [Task(MockSchedules[0], None)]
  {
    assert MockSchedules[1..][1..] == [];
    assert DueSchedules(MockSchedules, 1) == MockSchedules;
    forall w: Weekday | w != 1
      ensures TasksForDate(MockSchedules, [], Day(dateStr, w)) == [Task(MockSchedules[0], None)]
    {
      assert DueSchedules(MockSchedules, w) == [MockSchedules[0]];
    }
  }

  /** Fixture check: each mock user's credentials log in as that user. */
  lemma MockLogin()
    ensures FindUser(MockUsers, "admin@company.com", "admin") == Some(MockUsers[1])
    ensures FindUser(MockUsers, "admin@company.com", "tech") == None
  {
    var email := "admin@company.com";
    assert MockUsers[0].email[6] == 'l' && email[6] == 'c';
    assert MockUsers[2].email[0] == 'j' && MockUsers[3].email[0] == 's' && email[0] == 'a';
    assert |"admin"| != |"tech"|;
    assert !Credentials(MockUsers[0], email, "admin") && Credentials(MockUsers[1], email, "admin");
    assert forall i :: 0 <= i < |MockUsers| ==> !Credentials(MockUsers[i], email, "tech");
  }
}
