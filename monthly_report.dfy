/** The report screen of components/MonthlyReport.tsx: the four filters
    over the period's logs, the list of people to filter by, the month
    and status labels, and the rows of the exported CSV file. */
module MonthlyReport {

  import opened Types
  import opened Seqs
  import opened Strings
  import SupabaseDataService

  type ReportLog = SupabaseDataService.ReportLog

  // ---------------------------------------------------------------------
  // Filters

  /** The four filter fields; the empty string is "no filter". */
  datatype Filters = Filters(person: string, status: string, dateFrom: string, dateTo: string)

  const NoFilters: Filters := Filters("", "", "", "")

  /** Milliseconds in a day. */
  const DayMs: int := 86400000

  /** The readings of `Date` the date filter needs, in milliseconds since
      the epoch: `new Date(timestamp)`, and `new Date(field)` of a
      `YYYY-MM-DD` field, which JavaScript reads as midnight UTC of that
      date; plus the local time zone's offset (local time = UTC time +
      `offset`), taken as fixed. */
  datatype Clock = Clock(instant: string -> int, utcMidnight: string -> int, offset: int)

  /** `setHours(0, 0, 0, 0)`: the instant at which the local day holding
      `t` begins. */
  function LocalDayStart(t: int, offset: int): int {
    (t + offset) / DayMs * DayMs - offset
  }

  /** The from-bound as written: `new Date(dateFrom)` moved to the start
      of its local day. */
  function FromBoundAsWritten(c: Clock, day: string): int {
    LocalDayStart(c.utcMidnight(day), c.offset)
  }

  /** The to-bound as written: `new Date(dateTo)` moved to 23:59:59.999
      of its local day. */
  function ToBoundAsWritten(c: Clock, day: string): int {
    LocalDayStart(c.utcMidnight(day), c.offset) + DayMs - 1
  }

  /** The from-bound as intended: local midnight of the date the field
      names. */
  function FromBound(c: Clock, day: string): int {
    c.utcMidnight(day) - c.offset
  }

  /** The to-bound as intended: the last millisecond of the local day the
      field names. */
  function ToBound(c: Clock, day: string): int {
    c.utcMidnight(day) - c.offset + DayMs - 1
  }

  /** The test `filteredData` applies to a log, given the log's instant
      and the two date bounds: each filter that is set can reject it, in
      the order person, status, from, to. */
  predicate KeepWithin(log: ReportLog, f: Filters, logDate: int, from: int, to: int) {
    if f.person != "" && log.log.userName != f.person then false
    else if f.status != "" && StatusName(log.log.status) != f.status then false
    else if f.dateFrom != "" && logDate < from then false
    else if f.dateTo != "" && logDate > to then false
    else true
  }

  /** The test with the bounds lines 108-118 compute. */
  predicate KeepAsWritten(log: ReportLog, f: Filters, c: Clock) {
    KeepWithin(log, f, c.instant(log.log.timestamp), FromBoundAsWritten(c, f.dateFrom), ToBoundAsWritten(c, f.dateTo))
  }

  /** The test with the bounds of the days the user picked. */
  predicate Keep(log: ReportLog, f: Filters, c: Clock) {
    KeepWithin(log, f, c.instant(log.log.timestamp), FromBound(c, f.dateFrom), ToBound(c, f.dateTo))
  }

  /** `filteredData` as written. */
  function FilteredDataAsWritten(reportData: seq<ReportLog>, f: Filters, clock: Clock): (r: seq<ReportLog>)
    ensures Subseq(r, reportData)
    ensures forall x :: x in r <==> x in reportData && KeepAsWritten(x, f, clock)
    ensures |r| == |set i | 0 <= i < |reportData| && KeepAsWritten(reportData[i], f, clock)|
  {
    var keep := (x: ReportLog) => KeepAsWritten(x, f, clock);
    assert Positions(reportData, keep) == set i | 0 <= i < |reportData| && KeepAsWritten(reportData[i], f, clock);
    Filter(reportData, keep)
  }

  /** `filteredData` with the date range read as the user's local days:
      the logs every set filter lets through, in the order of the
      report. */
  function FilteredData(reportData: seq<ReportLog>, f: Filters, clock: Clock): (r: seq<ReportLog>)
    ensures Subseq(r, reportData)
    ensures forall x :: x in r <==>
      x in reportData &&
      (f.person == "" || x.log.userName == f.person) &&
      (f.status == "" || StatusName(x.log.status) == f.status) &&
      (f.dateFrom == "" || clock.instant(x.log.timestamp) >= FromBound(clock, f.dateFrom)) &&
      (f.dateTo == "" || clock.instant(x.log.timestamp) <= ToBound(clock, f.dateTo))
    ensures |r| == |set i | 0 <= i < |reportData| && Keep(reportData[i], f, clock)|
  {
    var keep := (x: ReportLog) => Keep(x, f, clock);
    assert Positions(reportData, keep) == set i | 0 <= i < |reportData| && Keep(reportData[i], f, clock);
    Filter(reportData, keep)
  }

  /** With no filter set, the whole report is shown. */
  lemma NoFiltersShowAll(reportData: seq<ReportLog>, clock: Clock)
    ensures FilteredData(reportData, NoFilters, clock) == reportData
  {
    FilterKeepsAll(reportData, (x: ReportLog) => Keep(x, NoFilters, clock));
  }

  /** Filtering twice with the same filters changes nothing more. */
  lemma FilteredDataIdempotent(reportData: seq<ReportLog>, f: Filters, clock: Clock)
    ensures FilteredData(FilteredData(reportData, f, clock), f, clock) == FilteredData(reportData, f, clock)
  {
    FilterIdempotent(reportData, (x: ReportLog) => Keep(x, f, clock));
  }

  /** A one-day range keeps exactly the logs from local midnight of that
      day to its last millisecond, both included. */
  lemma DateRangeInclusive(log: ReportLog, day: string, clock: Clock)
    requires day != ""
    ensures Keep(log, Filters("", "", day, day), clock) <==>
            clock.utcMidnight(day) - clock.offset <= clock.instant(log.log.timestamp) <=
            clock.utcMidnight(day) - clock.offset + DayMs - 1
  {
  }

  /** The bounds as written against the intended ones, for a zone less
      than a day from UTC: at UTC or east of it they agree; west of it
      both fall one day early, on the local day before the one picked. */
  lemma BoundsAsWritten(c: Clock, day: string)
    requires c.utcMidnight(day) % DayMs == 0
    requires -DayMs < c.offset < DayMs
    ensures c.offset >= 0 ==>
            FromBoundAsWritten(c, day) == FromBound(c, day) && ToBoundAsWritten(c, day) == ToBound(c, day)
    ensures c.offset < 0 ==>
            FromBoundAsWritten(c, day) == FromBound(c, day) - DayMs && ToBoundAsWritten(c, day) == ToBound(c, day) - DayMs
  {
    var m := c.utcMidnight(day);
    var k := m / DayMs;
    assert m == k * DayMs;
    var q := if c.offset >= 0 then k else k - 1;
    assert m + c.offset == q * DayMs + (m + c.offset - q * DayMs);
    assert 0 <= m + c.offset - q * DayMs < DayMs;
    DivUnique(m + c.offset, q);
  }

  /** Euclidean division by a day is the unique quotient. */
  lemma DivUnique(a: int, q: int)
    requires q * DayMs <= a < q * DayMs + DayMs
    ensures a / DayMs == q
  {
  }

  /** West of UTC a one-day range drops the picked day's logs: at UTC-5,
      "2024-01-10" to "2024-01-10" drops a log of 12:00 local time that
      day, which the intended range keeps. */
  lemma ToDayLogDropped()
    ensures var c := Clock((t: string) => if t == "2024-01-10T17:00:00.000Z" then 1704906000000 else 0,
                           (d: string) => if d == "2024-01-10" then 1704844800000 else 0,
                           -18000000);
            var l := BackupLog("l1", "s1", Completed, "2024-01-10T17:00:00.000Z", "u1", "Juan", "", "2024-01-10");
            var log := SupabaseDataService.ReportLog(l, "Base de datos");
            var f := Filters("", "", "2024-01-10", "2024-01-10");
            FilteredDataAsWritten([log], f, c) == [] && FilteredData([log], f, c) == [log]
  {
    var c := Clock((t: string) => if t == "2024-01-10T17:00:00.000Z" then 1704906000000 else 0,
                   (d: string) => if d == "2024-01-10" then 1704844800000 else 0,
                   -18000000);
    var l := BackupLog("l1", "s1", Completed, "2024-01-10T17:00:00.000Z", "u1", "Juan", "", "2024-01-10");
    var log := SupabaseDataService.ReportLog(l, "Base de datos");
    var f := Filters("", "", "2024-01-10", "2024-01-10");
    BoundsAsWritten(c, "2024-01-10");
    assert !KeepAsWritten(log, f, c);
    assert Keep(log, f, c);
    assert [log][1..] == [];
  }

  /** `clearFilters`, and the reset `generateReport` does on a period
      change. */
  function ClearFilters(): (f: Filters)
    ensures ActiveFilterCount(f) == 0
  {
    NoFilters
  }

  /** The badge: `[person, status, from, to].filter(Boolean).length`. */
  function ActiveFilterCount(f: Filters): (n: nat)
    ensures n <= 4
    ensures n == 0 <==> f == NoFilters
    ensures n == (if f.person != "" then 1 else 0) + (if f.status != "" then 1 else 0) +
                 (if f.dateFrom != "" then 1 else 0) + (if f.dateTo != "" then 1 else 0)
  {
    var fields := [f.person, f.status, f.dateFrom, f.dateTo];
    var set_ := Filter(fields, NonEmpty);
    CountNonEmpty(fields);
    var t1, t2, t3 := [f.status, f.dateFrom, f.dateTo], [f.dateFrom, f.dateTo], [f.dateTo];
    assert fields[1..] == t1 && t1[1..] == t2 && t2[1..] == t3 && t3[1..] == [];
    assert CountNonEmptyRec(t3) == (if f.dateTo != "" then 1 else 0);
    assert CountNonEmptyRec(t2) == (if f.dateFrom != "" then 1 else 0) + CountNonEmptyRec(t3);
    assert CountNonEmptyRec(t1) == (if f.status != "" then 1 else 0) + CountNonEmptyRec(t2);
    assert CountNonEmptyRec(fields) == (if f.person != "" then 1 else 0) + CountNonEmptyRec(t1);
    |set_|
  }

  /** `Boolean` on a string. */
  predicate NonEmpty(s: string) {
    s != ""
  }

  lemma {:induction false} CountNonEmpty(fields: seq<string>)
    ensures |Filter(fields, NonEmpty)| == CountNonEmptyRec(fields)
    decreases |fields|
  {
    if fields != [] {
      CountNonEmpty(fields[1..]);
    }
  }

  function CountNonEmptyRec(fields: seq<string>): nat
    decreases |fields|
  {
    if fields == [] then 0 else (if fields[0] != "" then 1 else 0) + CountNonEmptyRec(fields[1..])
  }

  /** The screen's state around the report: the rows the service
      returned and the filters. */
  datatype ReportState = ReportState(reportData: seq<ReportLog>, filters: Filters)

  /** `generateReport` with the service's answer: the new rows, every
      filter reset. */
  function GenerateReport(answer: SupabaseDataService.Query<SupabaseDataService.JoinedLog>): (s: ReportState)
    ensures s.reportData == SupabaseDataService.GetLogs(answer) && s.filters == NoFilters
  {
    ReportState(SupabaseDataService.GetLogs(answer), ClearFilters())
  }

  /** Right after a period change the table shows every row returned. */
  lemma GenerateReportShowsAll(answer: SupabaseDataService.Query<SupabaseDataService.JoinedLog>, clock: Clock)
    ensures var s := GenerateReport(answer);
            FilteredData(s.reportData, s.filters, clock) == s.reportData
  {
    NoFiltersShowAll(SupabaseDataService.GetLogs(answer), clock);
  }

  // ---------------------------------------------------------------------
  // People

  predicate StrictlySorted(s: seq<string>) {
    forall i, j :: 0 <= i < j < |s| ==> LexLt(s[i], s[j])
  }

  /** Inserting into a strictly sorted list without repeating. */
  function Insert(x: string, s: seq<string>): (r: seq<string>)
    requires StrictlySorted(s)
    ensures StrictlySorted(r)
    ensures forall y :: y in r <==> y == x || y in s
    decreases |s|
  {
    if s == [] then [x]
    else if x == s[0] then s
    else if LexLe(x, s[0]) then
      forall j | 0 <= j < |s| ensures LexLt(x, s[j]) {
        if j > 0 { LexLtTransitive(x, s[0], s[j]); }
      }
      [x] + s
    else
      var rest := Insert(x, s[1..]);
      LexLeTotal(x, s[0]);
      assert forall y :: y in s <==> y == s[0] || y in s[1..];
      forall j | 0 <= j < |rest| ensures LexLt(s[0], rest[j]) {
        assert rest[j] in rest;
        if rest[j] != x {
          var k :| 0 <= k < |s[1..]| && s[1..][k] == rest[j];
          assert s[k + 1] == rest[j];
        }
      }
      [s[0]] + rest
  }

  function SortedUnique(names: seq<string>): (r: seq<string>)
    ensures StrictlySorted(r)
    ensures forall y :: y in r <==> y in names
    decreases |names|
  {
    if names == [] then []
    else
      var n := |names| - 1;
      var rest := SortedUnique(names[..n]);
      assert forall y :: y in names <==> y in names[..n] || y == names[n] by {
        assert names == names[..n] + [names[n]];
      }
      Insert(names[n], rest)
  }

  /** `uniquePersons`: `Array.from(new Set(names)).sort()`. */
  function UniquePersons(reportData: seq<ReportLog>): (r: seq<string>)
    ensures StrictlySorted(r)
    ensures forall n :: n in r <==> exists i :: 0 <= i < |reportData| && reportData[i].log.userName == n
  {
    var names := Map(reportData, (x: ReportLog) => x.log.userName);
    SortedUnique(names)
  }

  /** A strictly sorted list holds no name twice. */
  lemma UniquePersonsDistinct(reportData: seq<ReportLog>)
    ensures var r := UniquePersons(reportData);
            forall i, j :: 0 <= i < j < |r| ==> r[i] != r[j]
  {
  }

  // ---------------------------------------------------------------------
  // Labels

  const MonthNames: seq<string> :=
    ["Enero", "Febrero", "Marzo", "Abril", "Mayo", "Junio",
     "Julio", "Agosto", "Septiembre", "Octubre", "Noviembre", "Diciembre"]

  /** `getMonthName`: -1 names the whole year; 0..11 index the month
      names; any other index is `undefined`. */
  function MonthName(month: int): (r: Option<string>)
    ensures month == -1 ==> r == Some("Todo el año")
    ensures 0 <= month < 12 ==> r == Some(MonthNames[month])
    ensures r.None? <==> !(-1 <= month < 12)
  {
    if month == -1 then Some("Todo el año")
    else if 0 <= month < 12 then Some(MonthNames[month])
    else None
  }

  /** `undefined` interpolated into a template literal. */
  function Text(s: Option<string>): string {
    if s.Some? then s.value else "undefined"
  }

  /** `getStatusText`: the three statuses the selector offers get their
      Spanish label; anything else is shown as it is. */
  function StatusText(status: string): (r: string)
    ensures status == "COMPLETED" ==> r == "Exitoso"
    ensures status == "WARNING" ==> r == "Con Novedad"
    ensures status == "FAILED" ==> r == "Fallido"
    ensures status !in {"COMPLETED", "WARNING", "FAILED"} ==> r == status
  {
    match status
    case "COMPLETED" => "Exitoso"
    case "WARNING" => "Con Novedad"
    case "FAILED" => "Fallido"
    case _ => status
  }

  /** On the four statuses of a log the label tells them apart: PENDING,
      which the switch does not list, comes out as `PENDING`. */
  lemma StatusTextOfStatuses(a: BackupStatus, b: BackupStatus)
    ensures StatusText(StatusName(BackupStatus.Pending)) == "PENDING"
    ensures StatusText(StatusName(a)) == StatusText(StatusName(b)) <==> a == b
  {
    assert "Exitoso"[0] != "Con Novedad"[0] && "Exitoso"[0] != "Fallido"[0] && "Exitoso"[0] != "PENDING"[0];
    assert "Con Novedad"[0] != "Fallido"[0] && "Con Novedad"[0] != "PENDING"[0] && "Fallido"[0] != "PENDING"[0];
  }

  // ---------------------------------------------------------------------
  // CSV export

  /** What the export needs besides the rows: the period, who asks, and
      the locale renderings of `Date`, as parameters. */
  datatype ExportContext = ExportContext(month: int, year: nat, user: User, generatedAt: string,
                                         dateText: string -> string, timeText: string -> string)

  function PeriodTitle(c: ExportContext): string {
    if c.month == -1 then "Año " + NatToString(c.year)
    else Text(MonthName(c.month)) + " " + NatToString(c.year)
  }

  /** A log's row: date, time, person, backup, status, notes. */
  function LogRow(log: ReportLog, c: ExportContext): (row: seq<string>)
    ensures |row| == |Header|
    ensures row[0] == c.dateText(log.log.timestamp) && row[1] == c.timeText(log.log.timestamp)
    ensures row[2] == log.log.userName && row[3] == log.scheduleName
    ensures row[4] == StatusText(StatusName(log.log.status)) && row[5] == log.log.notes
  {
    [c.dateText(log.log.timestamp), c.timeText(log.log.timestamp), log.log.userName, log.scheduleName,
     StatusText(StatusName(log.log.status)), log.log.notes]
  }

  const Header: seq<string> := ["Fecha", "Hora", "Persona", "Respaldo", "Estado", "Notas"]

  /** `csvRows`: six preamble rows (the fifth one empty), then one row per
      log in report order. */
  function CsvRows(reportData: seq<ReportLog>, c: ExportContext): (rows: seq<seq<string>>)
    ensures |rows| == 6 + |reportData|
    ensures rows[4] == [] && rows[5] == Header
    ensures forall i :: 0 <= i < |reportData| ==> rows[6 + i] == LogRow(reportData[i], c)
  {
    [["Reporte Mensual de Respaldos - Listosoft"],
     ["Período: " + PeriodTitle(c)],
     ["Generado por: " + c.user.name + " " + c.user.lastName],
     ["Fecha de generación: " + c.generatedAt],
     [],
     Header] +
    Map(reportData, (log: ReportLog) => LogRow(log, c))
  }

  function JoinRow(row: seq<string>): string {
    Join(row, ',')
  }

  /** `exportToCSV`: nothing on an empty report; otherwise the rows
      joined by `,` and the lines by a newline. */
  function ExportCsv(reportData: seq<ReportLog>, c: ExportContext): (content: Option<string>)
    ensures content.None? <==> |reportData| == 0
    ensures content.Some? ==> content.value == Join(Map(CsvRows(reportData, c), JoinRow), '\n')
  {
    if |reportData| == 0 then None
    else Some(Join(Map(CsvRows(reportData, c), JoinRow), '\n'))
  }

  predicate Plain(s: string) {
    ',' !in s && '\n' !in s
  }

  /** No field of the row holds a comma or a newline. */
  predicate PlainRow(row: seq<string>) {
    forall k :: 0 <= k < |row| ==> Plain(row[k])
  }

  /** No field of the row holds a newline. */
  predicate NoNewline(row: seq<string>) {
    forall k :: 0 <= k < |row| ==> '\n' !in row[k]
  }

  /** The export is read back line by line and field by field (commas
      are not escaped). When no field holds a newline, there is one line
      per row: the generation line comes back as its text whatever the
      locale rendering of the date holds, the empty fifth row as an empty
      line, and every other row whose fields hold no comma splits back
      into its fields. */
  lemma ExportRoundTrip(reportData: seq<ReportLog>, c: ExportContext)
    requires |reportData| > 0
    requires forall i :: 0 <= i < |CsvRows(reportData, c)| ==> NoNewline(CsvRows(reportData, c)[i])
    requires forall i :: 0 <= i < |CsvRows(reportData, c)| && i != 3 ==> PlainRow(CsvRows(reportData, c)[i])
    ensures var rows := CsvRows(reportData, c);
            var lines := Split(ExportCsv(reportData, c).value, '\n');
            |lines| == |rows| && lines[3] == "Fecha de generación: " + c.generatedAt && lines[4] == "" &&
            forall i :: 0 <= i < |rows| && i != 3 && i != 4 ==> Split(lines[i], ',') == rows[i]
  {
    var rows := CsvRows(reportData, c);
    RowsRoundTrip(rows);
    assert rows[3] == ["Fecha de generación: " + c.generatedAt];
    assert forall i :: 0 <= i < |rows| && i != 4 ==> rows[i] != [] by {
      forall i | 0 <= i < |rows| && i != 4 ensures rows[i] != [] {
        if i >= 6 { assert |rows[i]| == |LogRow(reportData[i - 6], c)| == 6; }
      }
    }
  }

  /** Rows without newlines, joined into lines and read back: one line
      per row, holding that row joined by commas; an empty row reads as
      an empty line, and a non-empty row of plain fields comes back. */
  lemma RowsRoundTrip(rows: seq<seq<string>>)
    requires |rows| > 0
    requires forall i :: 0 <= i < |rows| ==> NoNewline(rows[i])
    ensures var lines := Split(Join(Map(rows, JoinRow), '\n'), '\n');
            |lines| == |rows| &&
            (forall i :: 0 <= i < |rows| ==> lines[i] == JoinRow(rows[i])) &&
            (forall i :: 0 <= i < |rows| && rows[i] == [] ==> lines[i] == "") &&
            (forall i :: 0 <= i < |rows| && rows[i] != [] && PlainRow(rows[i]) ==> Split(lines[i], ',') == rows[i])
  {
    var joined := Map(rows, JoinRow);
    forall i | 0 <= i < |joined| ensures '\n' !in joined[i] {
      JoinKeepsOut(rows[i], ',', '\n');
    }
    SplitJoin(joined, '\n');
    forall i | 0 <= i < |rows| && rows[i] != [] && PlainRow(rows[i]) ensures Split(joined[i], ',') == rows[i] {
      SplitJoin(rows[i], ',');
    }
  }

  /** Joining strings without `x` by a separator other than `x` gives a
      string without `x`. */
  lemma {:induction false} JoinKeepsOut(parts: seq<string>, sep: char, x: char)
    requires sep != x
    requires forall k :: 0 <= k < |parts| ==> x !in parts[k]
    ensures x !in Join(parts, sep)
    decreases |parts|
  {
    if |parts| > 1 {
      JoinKeepsOut(parts[1..], sep, x);
    }
  }
}
