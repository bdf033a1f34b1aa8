/** Entities of the backup-tracking application (types.ts and the
    database row types of types/database.ts), plus the fixture data of
    constants.tsx that the local store falls back to. */
module Types {

  datatype Option<+T> = None | Some(value: T) {
    function GetOr(default: T): T {
      match this
      case Some(v) => v
      case None => default
    }
  }

  datatype UserRole = Admin | Tech | Supervisor

  /** PENDING exists in the enumeration but is never stored by the UI:
      a task without a log is what the screens call pending. */
  datatype BackupStatus = Pending | Completed | Warning | Failed

  /** The three values of types.ts plus CUSTOM, the value the database
      enumeration uses where types.ts says SPECIFIC_DAYS. */
  datatype FrequencyType = Daily | Weekly | SpecificDays | Custom

  datatype BackupType = Database | Ftp | ExternalDisk | Cloud

  datatype User = User(id: string, name: string, lastName: string, email: string,
                       password: Option<string>, role: UserRole)

  datatype BackupSchedule = BackupSchedule(id: string, name: string, kind: BackupType,
                                           frequency: FrequencyType,
                                           daysOfWeek: Option<seq<int>>,
                                           description: string)

  datatype BackupLog = BackupLog(id: string, scheduleId: string, status: BackupStatus,
                                 timestamp: string, userId: string, userName: string,
                                 notes: string, dateStr: string)

  /** The `Omit<X, 'id'>` arguments of the store's save operations. */
  datatype UserDraft = UserDraft(name: string, lastName: string, email: string,
                                 password: Option<string>, role: UserRole)

  datatype ScheduleDraft = ScheduleDraft(name: string, kind: BackupType,
                                         frequency: FrequencyType,
                                         daysOfWeek: Option<seq<int>>,
                                         description: string)

  datatype LogDraft = LogDraft(scheduleId: string, status: BackupStatus, timestamp: string,
                               userId: string, userName: string, notes: string,
                               dateStr: string)

  /** `{ ...draft, id }`: the draft's fields and a new identity. */
  function UserWithId(d: UserDraft, id: string): (u: User)
    ensures u.id == id && UserDraft(u.name, u.lastName, u.email, u.password, u.role) == d
  {
    User(id, d.name, d.lastName, d.email, d.password, d.role)
  }

  function ScheduleWithId(d: ScheduleDraft, id: string): (s: BackupSchedule)
    ensures s.id == id
    ensures ScheduleDraft(s.name, s.kind, s.frequency, s.daysOfWeek, s.description) == d
  {
    BackupSchedule(id, d.name, d.kind, d.frequency, d.daysOfWeek, d.description)
  }

  function LogWithId(d: LogDraft, id: string): (l: BackupLog)
    ensures l.id == id
    ensures LogDraft(l.scheduleId, l.status, l.timestamp, l.userId, l.userName, l.notes, l.dateStr) == d
  {
    BackupLog(id, d.scheduleId, d.status, d.timestamp, d.userId, d.userName, d.notes, d.dateStr)
  }

  /** A calendar day as the task derivation sees it: the `YYYY-MM-DD`
      key that logs are filed under and the weekday (0 = Sunday). */
  type Weekday = w: int | 0 <= w < 7

  datatype Day = Day(dateStr: string, weekday: Weekday)

  /** A schedule due on some day, paired with the log recorded for it. */
  datatype Task = Task(schedule: BackupSchedule, log: Option<BackupLog>)

  function ScheduleOf(t: Task): BackupSchedule {
    t.schedule
  }

  /** The enumeration's string value, as the report filter compares it. */
  function StatusName(s: BackupStatus): string {
    match s
    case Pending => "PENDING"
    case Completed => "COMPLETED"
    case Warning => "WARNING"
    case Failed => "FAILED"
  }

  /** The stored status strings tell the four statuses apart. */
  lemma StatusNameInjective(a: BackupStatus, b: BackupStatus)
    ensures StatusName(a) == StatusName(b) <==> a == b
  {
  }

  /** MOCK_USERS of constants.tsx. */
  const MockUsers: seq<User> := [
    User("u0", "Admin", "Listosoft", "admin@listosoft.com", Some("12345"), Admin),
    User("u1", "Usuario", "Admin", "admin@company.com", Some("admin"), Admin),
    User("u2", "Juan", "Técnico", "john@company.com", Some("tech"), Tech),
    User("u3", "Sara", "Supervisor", "supervisor@company.com", Some("super"), Supervisor)
  ]

  /** MOCK_SCHEDULES of constants.tsx. */
  const MockSchedules: seq<BackupSchedule> := [
    BackupSchedule("s1", "Base de Datos PostgreSQL Principal", Database, Daily, None,
                   "Volcado crítico de la base de datos cada medianoche."),
    BackupSchedule("s2", "Almacenamiento FTP Legado", Ftp, Weekly, Some([1]),
                   "Sincronización semanal de activos archivados.")
  ]
}
