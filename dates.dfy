/** The calendar arithmetic the screens get from JavaScript's `Date`:
    month lengths (`new Date(y, m + 1, 0).getDate()`), weekdays
    (`getDay()`), and the `YYYY-MM-DD` strings that
    `toISOString().split('T')[0]` yields. Months are numbered 0..11 as
    in `Date`; the proleptic Gregorian calendar is used throughout. */
module Dates {

  import opened Strings

  predicate IsLeapYear(y: int) {
    y % 4 == 0 && (y % 100 != 0 || y % 400 == 0)
  }

  function YearLength(y: int): int {
    if IsLeapYear(y) then 366 else 365
  }

  /** Day 0 of month m + 1, i.e. the last day of month m. */
  function DaysInMonth(y: int, m: int): (n: int)
    requires 0 <= m < 12
    ensures 28 <= n <= 31
    ensures m == 1 ==> (n == 29 <==> IsLeapYear(y))
    ensures m == 1 && !IsLeapYear(y) ==> n == 28
    ensures m != 1 ==> n == (if m == 3 || m == 5 || m == 8 || m == 10 then 30 else 31)
  {
    if m == 1 then (if IsLeapYear(y) then 29 else 28)
    else if m == 3 || m == 5 || m == 8 || m == 10 then 30
    else 31
  }

  /** Days of year y before the first of month m. */
  function DaysBeforeMonth(y: int, m: int): (n: int)
    requires 0 <= m <= 12
    ensures n >= 0
  {
    if m == 0 then 0 else DaysBeforeMonth(y, m - 1) + DaysInMonth(y, m - 1)
  }

  lemma MonthsFillYear(y: int)
    ensures DaysBeforeMonth(y, 12) == YearLength(y)
  {
    var feb := DaysInMonth(y, 1);
    assert DaysBeforeMonth(y, 1) == 31;
    assert DaysBeforeMonth(y, 2) == 31 + feb;
    assert DaysBeforeMonth(y, 3) == 62 + feb;
    assert DaysBeforeMonth(y, 4) == 92 + feb;
    assert DaysBeforeMonth(y, 5) == 123 + feb;
    assert DaysBeforeMonth(y, 6) == 153 + feb;
    assert DaysBeforeMonth(y, 7) == 184 + feb;
    assert DaysBeforeMonth(y, 8) == 215 + feb;
    assert DaysBeforeMonth(y, 9) == 245 + feb;
    assert DaysBeforeMonth(y, 10) == 276 + feb;
    assert DaysBeforeMonth(y, 11) == 306 + feb;
  }

  /** Days from 0001-01-01 (a Monday) to January 1 of year y. */
  function DaysBeforeYear(y: int): int {
    365 * (y - 1) + (y - 1) / 4 - (y - 1) / 100 + (y - 1) / 400
  }

  /** Going from y - 1 to y, the quotient by K grows by one exactly when
      K divides y. */
  lemma DivStep(y: int)
    ensures y / 4 - (y - 1) / 4 == if y % 4 == 0 then 1 else 0
    ensures y / 100 - (y - 1) / 100 == if y % 100 == 0 then 1 else 0
    ensures y / 400 - (y - 1) / 400 == if y % 400 == 0 then 1 else 0
  {
  }

  lemma NextYearStart(y: int)
    ensures DaysBeforeYear(y + 1) == DaysBeforeYear(y) + YearLength(y)
  {
    DivStep(y);
    assert y % 100 == 0 ==> y % 4 == 0;
    assert y % 400 == 0 ==> y % 100 == 0;
  }

  function DayNumber(y: int, m: int, d: int): int
    requires 0 <= m < 12
  {
    DaysBeforeYear(y) + DaysBeforeMonth(y, m) + (d - 1)
  }

  /** `new Date(y, m, d).getDay()`: 0 = Sunday .. 6 = Saturday. */
  function WeekdayOf(y: int, m: int, d: int): (w: int)
    requires 0 <= m < 12
    ensures 0 <= w < 7
  {
    (DayNumber(y, m, d) + 1) % 7
  }

  lemma WeekdayOfKnownDays()
    ensures WeekdayOf(2024, 0, 1) == 1   // a Monday
    ensures WeekdayOf(1970, 0, 1) == 4   // a Thursday
  {
    assert DaysBeforeYear(2024) == 738885;
    assert DaysBeforeYear(1970) == 719162;
  }

  predicate ValidDate(y: int, m: int, d: int) {
    0 <= y <= 9999 && 0 <= m < 12 && 1 <= d <= DaysInMonth(y, m)
  }

  /** The `YYYY-MM-DD` key of a date (month printed one-based). */
  function FormatDate(y: int, m: int, d: int): (r: string)
    requires ValidDate(y, m, d)
    ensures |r| == 10
  {
    Digits(y, 4) + "-" + Digits(m + 1, 2) + "-" + Digits(d, 2)
  }

  predicate DateLe(y1: int, m1: int, d1: int, y2: int, m2: int, d2: int) {
    y1 < y2 || (y1 == y2 && (m1 < m2 || (m1 == m2 && d1 <= d2)))
  }

  lemma {:induction false} FieldOrder(x: nat, y: nat, w: nat)
    requires x < Pow10(w) && y < Pow10(w)
    ensures LexLt(Digits(x, w), Digits(y, w)) <==> x < y
    ensures Digits(x, w) == Digits(y, w) <==> x == y
  {
    DigitsOrder(x, y, w);
  }

  /** The `-MM-` field of a date string. */
  function MonthField(m: int): string
    requires 0 <= m < 12
  {
    "-" + Digits(m + 1, 2) + "-"
  }

  lemma MonthFieldOrder(m1: int, m2: int)
    requires 0 <= m1 < 12 && 0 <= m2 < 12
    ensures LexLt(MonthField(m1), MonthField(m2)) <==> m1 < m2
    ensures MonthField(m1) == MonthField(m2) <==> m1 == m2
  {
    assert Pow10(2) == 100;
    var Mm1, Mm2 := Digits(m1 + 1, 2), Digits(m2 + 1, 2);
    FieldOrder(m1 + 1, m2 + 1, 2);
    assert MonthField(m1) == "-" + (Mm1 + "-") && MonthField(m2) == "-" + (Mm2 + "-");
    LexLeConcat("-", Mm1 + "-", "-", Mm2 + "-");
    LexLeConcat(Mm1, "-", Mm2, "-");
    LexLeReflexive("-");
    ConcatEq("-", Mm1 + "-", "-", Mm2 + "-");
    ConcatEq(Mm1, "-", Mm2, "-");
  }

  /** A date string is its year field, its `-MM-` field and its day field. */
  lemma FormatDateFields(y: int, m: int, d: int)
    requires ValidDate(y, m, d)
    ensures FormatDate(y, m, d) == Digits(y, 4) + (MonthField(m) + Digits(d, 2))
    ensures |Digits(y, 4)| == 4 && |MonthField(m)| == 4
  {
  }

  /** Date strings compare, character by character, as the dates do;
      and distinct dates have distinct strings. */
  lemma {:induction false} FormatDateOrder(y1: int, m1: int, d1: int, y2: int, m2: int, d2: int)
    requires ValidDate(y1, m1, d1) && ValidDate(y2, m2, d2)
    ensures LexLe(FormatDate(y1, m1, d1), FormatDate(y2, m2, d2)) <==> DateLe(y1, m1, d1, y2, m2, d2)
    ensures FormatDate(y1, m1, d1) == FormatDate(y2, m2, d2) <==> (y1 == y2 && m1 == m2 && d1 == d2)
  {
    assert Pow10(2) == 100 && Pow10(4) == 10000;
    var Y1, Y2 := Digits(y1, 4), Digits(y2, 4);
    var M1, M2 := MonthField(m1), MonthField(m2);
    var D1, D2 := Digits(d1, 2), Digits(d2, 2);
    FieldOrder(y1, y2, 4);
    MonthFieldOrder(m1, m2);
    DigitsOrder(d1, d2, 2);
    FormatDateFields(y1, m1, d1);
    FormatDateFields(y2, m2, d2);
    LexLeConcat(Y1, M1 + D1, Y2, M2 + D2);
    LexLeConcat(M1, D1, M2, D2);
    ConcatEq(Y1, M1 + D1, Y2, M2 + D2);
    ConcatEq(M1, D1, M2, D2);
  }
}
