/** calendar.c on values: dates, the seconds count since year 0, and one second's step. */
module Dates {
  import opened Bytes
  import opened CInt

  const DAY := 86400

  /** _SYSTIME: seven unsigned 16-bit fields. */
  datatype DateTime = DateTime(year: nat, month: nat, week: nat, day: nat, hour: nat, minute: nat, second: nat)

  predicate Leap(year: nat)
  {
    if year % 400 == 0 then true else if year % 100 == 0 then false else year % 4 == 0
  }

  const MONTHS := [31, 28, 31, 30, 31, 30, 31, 31, 30, 31, 30, 31]

  function DaysInMonth(year: nat, month: nat): (n: nat)
    requires 1 <= month <= 12
    ensures 28 <= n <= 31
  {
    if month == 2 && Leap(year) then 29 else MONTHS[month - 1]
  }

  /** The Gregorian calendar. */
  lemma MonthLengths(year: nat, month: nat)
    requires 1 <= month <= 12
    ensures DaysInMonth(year, month) ==
      if month == 4 || month == 6 || month == 9 || month == 11 then 30
      else if month != 2 then 31
      else if year % 4 == 0 && (year % 100 != 0 || year % 400 == 0) then 29 else 28
  {
  }

  function YearLength(year: nat): (n: nat)
    ensures 365 <= n <= 366
  {
    if Leap(year) then 366 else 365
  }

  function DaysBeforeYear(year: nat): nat
  {
    if year == 0 then 0 else DaysBeforeYear(year - 1) + YearLength(year - 1)
  }

  function DaysBeforeMonth(year: nat, month: nat): nat
    requires month <= 13
  {
    if month <= 1 then 0 else DaysBeforeMonth(year, month - 1) + DaysInMonth(year, month - 1)
  }

  function DayNumber(d: DateTime): int
    requires d.month <= 13
  {
    DaysBeforeYear(d.year) + DaysBeforeMonth(d.year, d.month) + (d.day - 1)
  }

  /** convertDateTimeToSeconds */
  function Seconds(d: DateTime): int
    requires d.month <= 13
  {
    DayNumber(d) * DAY + d.hour * 3600 + d.minute * 60 + d.second
  }

  predicate ValidDate(d: DateTime)
  {
    d.year < WORD16 && 1 <= d.month <= 12 && 1 <= d.day <= DaysInMonth(d.year, d.month)
  }

  predicate Valid(d: DateTime)
  {
    ValidDate(d) && d.hour < 24 && d.minute < 60 && d.second < 60
  }

  // ---------------------------------------------------------------- counting days

  /** The leap years among the first so many. */
  function LeapYears(years: nat): nat
  {
    (years + 3) / 4 - (years + 99) / 100 + (years + 399) / 400
  }

  lemma OneMoreYear(year: nat)
    ensures LeapYears(year + 1) == LeapYears(year) + if Leap(year) then 1 else 0
  {
    NextMultiple(year, 4);
    NextMultiple(year, 100);
    NextMultiple(year, 400);
    Multiples(year);
  }

  lemma Multiples(year: nat)
    ensures (year % 400 == 0 ==> year % 100 == 0) && (year % 100 == 0 ==> year % 4 == 0)
  {
    Divides(year, 400, 100);
    Divides(year, 100, 4);
  }

  lemma Divides(x: nat, n: nat, m: nat)
    requires (n == 400 && m == 100) || (n == 100 && m == 4)
    ensures x % n == 0 ==> x % m == 0
  {
    if x % n == 0 {
      var q := x / n;
      assert x == m * (if n == 400 then 4 * q else 25 * q);
    }
  }

  lemma NextMultiple(year: nat, n: nat)
    requires n == 4 || n == 100 || n == 400
    ensures (year + 1 + (n - 1)) / n == (year + (n - 1)) / n + if year % n == 0 then 1 else 0
  {
  }

  /** The sum over all years before is the one the calendar's rule gives directly. */
  lemma {:induction false} DaysBeforeYearIs(year: nat)
    ensures DaysBeforeYear(year) == 365 * year + LeapYears(year)
  {
    hide Leap, LeapYears;
    if year > 0 {
      DaysBeforeYearIs(year - 1);
      OneMoreYear(year - 1);
    } else {
      NoYears();
    }
  }

  lemma NoYears()
    ensures LeapYears(0) == 0
  {
  }

  lemma MonthTable(year: nat)
    ensures DaysBeforeMonth(year, 1) == 0 && DaysBeforeMonth(year, 2) == 31
    ensures var f := if Leap(year) then 29 else 28;
      && DaysBeforeMonth(year, 3) == 31 + f && DaysBeforeMonth(year, 4) == 62 + f
      && DaysBeforeMonth(year, 5) == 92 + f && DaysBeforeMonth(year, 6) == 123 + f
      && DaysBeforeMonth(year, 7) == 153 + f
  {
    hide Leap;
  }

  lemma MonthTableRest(year: nat)
    ensures var f := if Leap(year) then 29 else 28;
      && DaysBeforeMonth(year, 8) == 184 + f && DaysBeforeMonth(year, 9) == 215 + f
      && DaysBeforeMonth(year, 10) == 245 + f && DaysBeforeMonth(year, 11) == 276 + f
      && DaysBeforeMonth(year, 12) == 306 + f && DaysBeforeMonth(year, 13) == 337 + f
  {
    MonthTable(year);
    hide Leap;
  }

  lemma {:induction false} MonthsGrow(year: nat, m: nat, n: nat)
    requires 1 <= m <= n <= 13
    ensures DaysBeforeMonth(year, m) + (if m < n then DaysInMonth(year, m) else 0) <= DaysBeforeMonth(year, n)
  {
    hide DaysInMonth;
    if m < n - 1 { MonthsGrow(year, m, n - 1); }
  }

  lemma {:induction false} YearsGrow(m: nat, n: nat)
    requires m <= n
    ensures DaysBeforeYear(m) + (if m < n then YearLength(m) else 0) <= DaysBeforeYear(n)
  {
    hide YearLength;
    if m < n - 1 { YearsGrow(m, n - 1); }
  }

  /** A valid date lies inside its year. */
  lemma InsideYear(d: DateTime)
    requires ValidDate(d)
    ensures 0 <= DaysBeforeMonth(d.year, d.month) + (d.day - 1) < YearLength(d.year)
  {
    MonthsGrow(d.year, d.month, 13);
    MonthTableRest(d.year);
    hide DaysBeforeMonth, DaysInMonth, Leap;
  }

  // ---------------------------------------------------------------- order

  ghost predicate DateBefore(a: DateTime, b: DateTime)
  {
    || a.year < b.year
    || (a.year == b.year && (a.month < b.month || (a.month == b.month && a.day < b.day)))
  }

  ghost predicate SameDate(a: DateTime, b: DateTime) { a.year == b.year && a.month == b.month && a.day == b.day }

  /** Lexicographic order of year, month, day, hour, minute and second. */
  ghost predicate Before(a: DateTime, b: DateTime)
  {
    || DateBefore(a, b)
    || (SameDate(a, b) && (a.hour < b.hour || (a.hour == b.hour && (a.minute < b.minute ||
                           (a.minute == b.minute && a.second < b.second)))))
  }

  lemma DateOrder(a: DateTime, b: DateTime)
    requires ValidDate(a) && ValidDate(b) && DateBefore(a, b)
    ensures DayNumber(a) < DayNumber(b)
  {
    hide DaysBeforeYear, DaysBeforeMonth, DaysInMonth, YearLength;
    if a.year < b.year {
      InsideYear(a);
      InsideYear(b);
      YearsGrow(a.year, b.year);
    } else if a.month < b.month {
      MonthsGrow(a.year, a.month, b.month);
    }
  }

  lemma DayOrder(m: int, n: int, s: nat, t: nat)
    requires m < n && s < DAY
    ensures m * DAY + s < n * DAY + t
  {
  }

  /** The seconds count is strictly increasing. */
  lemma SecondsIncrease(a: DateTime, b: DateTime)
    requires Valid(a) && Valid(b) && Before(a, b)
    ensures Seconds(a) < Seconds(b)
  {
    hide DayNumber, DaysInMonth;
    if DateBefore(a, b) {
      DateOrder(a, b);
      DayOrder(DayNumber(a), DayNumber(b), a.hour * 3600 + a.minute * 60 + a.second,
               b.hour * 3600 + b.minute * 60 + b.second);
    } else {
      SameDay(a, b);
    }
  }

  lemma SameDay(a: DateTime, b: DateTime)
    requires a.month <= 13 && SameDate(a, b)
    ensures DayNumber(a) == DayNumber(b)
  {
  }

  /** Two valid dates with the same count are the same, but for the day of the week. */
  lemma SecondsDetermine(a: DateTime, b: DateTime)
    requires Valid(a) && Valid(b) && Seconds(a) == Seconds(b)
    ensures a.(week := b.week) == b
  {
    hide Seconds, DaysInMonth;
    if Before(a, b) { SecondsIncrease(a, b); }
    if Before(b, a) { SecondsIncrease(b, a); }
  }

  // ---------------------------------------------------------------- back from seconds

  datatype Found = Found(rest: int, index: nat)

  /** The loop that looks for the year; the field wraps around after 65535. */
  function YearSearch(days: int, year: nat): (f: Found)
    requires year < WORD16
    ensures f.index < WORD16 && f.rest < YearLength(f.index)
    ensures days >= 0 ==> f.rest >= 0
    decreases days
  {
    if days >= YearLength(year) then YearSearch(days - YearLength(year), U16(year + 1)) else Found(days, year)
  }

  /** The loop that looks for the month. */
  function MonthSearch(year: nat, days: int, month: nat): (f: Found)
    requires 1 <= month <= 12 && days < DaysBeforeMonth(year, 13) - DaysBeforeMonth(year, month)
    ensures 1 <= f.index <= 12 && f.rest < DaysInMonth(year, f.index)
    ensures days >= 0 ==> f.rest >= 0
    ensures DaysBeforeMonth(year, f.index) + f.rest == DaysBeforeMonth(year, month) + days
    decreases 13 - month
  {
    if days >= DaysInMonth(year, month) then MonthSearch(year, days - DaysInMonth(year, month), month + 1)
    else Found(days, month)
  }

  lemma YearFits(year: nat, days: int)
    requires days < YearLength(year)
    ensures DaysBeforeMonth(year, 1) == 0 && days < DaysBeforeMonth(year, 13)
  {
    MonthTableRest(year);
    hide DaysBeforeMonth, Leap;
    MonthTable(year);
  }

  function FromDays(days: int): (d: DateTime)
  {
    var y := YearSearch(days, 0);
    YearFits(y.index, y.rest);
    var m := MonthSearch(y.index, y.rest, 1);
    DateTime(y.index, m.index, 0, U16(m.rest + 1), 0, 0, 0)
  }

  /** convertSecondsToDateTime, which leaves the day of the week alone. */
  function FromSeconds(total: int, week: nat): (d: DateTime)
  {
    var rest := Remainder(total, DAY);
    var rest2 := Remainder(rest, 3600);
    FromDays(Quotient(total, DAY)).(week := week, hour := U16(Quotient(rest, 3600)),
                                    minute := U16(Quotient(rest2, 60)), second := U16(Remainder(rest2, 60)))
  }
}
