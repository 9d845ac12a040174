/** What is proved of the calendar: the conversions undo each other, the in-place increment of a date
    agrees with the seconds count, and the BCD form of a date keeps it. */
module DateProofs {
  import opened Bytes
  import opened CInt
  import opened Dates

  // ---------------------------------------------------------------- seconds and dates

  /** The first second that no year of 16 bits holds: the beginning of year 65536. */
  const LIMIT := 23936532 * DAY

  lemma {:induction false} YearFound(days: nat, year: nat)
    requires year < WORD16 && DaysBeforeYear(year) + days < 23936532
    ensures var f := YearSearch(days, year);
      year <= f.index && DaysBeforeYear(f.index) + f.rest == DaysBeforeYear(year) + days
    decreases days
  {
    hide YearLength;
    if days >= YearLength(year) {
      YearFits16(days, year);
      YearFound(days - YearLength(year), year + 1);
    }
  }

  lemma YearFits16(days: nat, year: nat)
    requires year < WORD16 && YearLength(year) <= days && DaysBeforeYear(year) + days < 23936532
    ensures year + 1 < WORD16
  {
    DaysBeforeYearIs(year);
    hide DaysBeforeYear;
  }

  lemma DaysBack(days: nat)
    requires days < 23936532
    ensures ValidDate(FromDays(days)) && DayNumber(FromDays(days)) == days
  {
    YearFound(days, 0);
    var y := YearSearch(days, 0);
    YearFits(y.index, y.rest);
    FirstMonth(y.index);
    hide YearSearch, MonthSearch, DaysInMonth, YearLength, DaysBeforeMonth;
  }

  lemma FirstMonth(year: nat)
    ensures DaysBeforeMonth(year, 1) == 0 && DaysBeforeYear(0) == 0
  {
  }

  lemma AnyDateIsValid(days: nat)
    ensures ValidDate(FromDays(days))
  {
    var y := YearSearch(days, 0);
    YearFits(y.index, y.rest);
    hide YearSearch, MonthSearch, YearLength, DaysBeforeMonth;
  }

  /** The time of day of a number of seconds. */
  lemma TimeOfDay(rest: nat)
    requires rest < DAY
    ensures var h, r := rest / 3600, rest % 3600;
      h < 24 && r / 60 < 60 && r % 60 < 60 && h * 3600 + r / 60 * 60 + r % 60 == rest
  {
  }

  /** A non-negative count becomes a valid date, and is that date's count again exactly below LIMIT. */
  lemma FromSecondsIsValid(total: nat, week: nat)
    ensures Valid(FromSeconds(total, week))
  {
    AnyDateIsValid(total / DAY);
    TimeOfDay(total % DAY);
    hide FromDays, DaysInMonth;
  }

  lemma SecondsBack(total: nat, week: nat)
    requires total < LIMIT
    ensures Seconds(FromSeconds(total, week)) == total
  {
    DaysBack(total / DAY);
    TimeOfDay(total % DAY);
    SameDay(FromDays(total / DAY), FromSeconds(total, week));
    hide FromDays, DaysInMonth, DayNumber;
  }

  /** No valid date has a count of LIMIT or more. */
  lemma SecondsBound(d: DateTime)
    requires Valid(d)
    ensures 0 <= Seconds(d) < LIMIT
  {
    InsideYear(d);
    DaysBeforeYearIs(d.year);
    YearEnds(d.year);
    hide DaysBeforeYear, DaysBeforeMonth, DaysInMonth, YearLength, LeapYears;
  }

  lemma YearEnds(year: nat)
    requires year < WORD16
    ensures 365 * year + LeapYears(year) + YearLength(year) <= 23936532
  {
    OneMoreYear(year);
    hide Leap;
  }

  /** A date becomes itself again. */
  lemma DateBack(d: DateTime)
    requires Valid(d)
    ensures FromSeconds(Seconds(d), d.week) == d
  {
    SecondsBound(d);
    FromSecondsIsValid(Seconds(d), d.week);
    SecondsBack(Seconds(d), d.week);
    var e := FromSeconds(Seconds(d), d.week);
    SecondsDetermine(d, e);
    hide Seconds, DaysInMonth, FromDays, Quotient, Remainder, U16;
  }

  lemma NegativeDays(days: int)
    requires days <= 0
    ensures FromDays(days) == DateTime(0, 1, 0, U16(days + 1), 0, 0, 0)
  {
    hide U16;
  }

  lemma NegativeSeconds(total: int, week: nat)
    requires total < 0
    ensures Seconds(FromSeconds(total, week)) == total <==> total == -DAY
  {
    var q, rest := Quotient(total, DAY), Remainder(total, DAY);
    NegativeDays(q);
    hide FromDays;
    var d := FromSeconds(total, week);
    assert DayNumber(d) == U16(q + 1) - 1;
    hide DayNumber;
    assert total == q * DAY + rest && -DAY < rest <= 0;
  }

  /** The exact counts that survive: those of the dates of 16-bit years, and by accident the one
      that becomes day 0 of January of year 0. */
  lemma BackAndForth(total: int, week: nat)
    ensures Seconds(FromSeconds(total, week)) == total <==> (0 <= total < LIMIT || total == -DAY)
  {
    if total < 0 {
      NegativeSeconds(total, week);
    } else {
      FromSecondsIsValid(total, week);
      SecondsBound(FromSeconds(total, week));
      if total < LIMIT { SecondsBack(total, week); }
    }
    hide Seconds, FromSeconds;
  }

  /** calctimediff and addtimediff: adding the difference of two dates to one gives the other. */
  lemma DifferenceAdds(a: DateTime, b: DateTime)
    requires Valid(a) && b.month <= 13
    ensures FromSeconds(Seconds(b) + (Seconds(a) - Seconds(b)), b.week) == a.(week := b.week)
  {
    hide FromSeconds, DayNumber, DaysInMonth;
    DateBack(a.(week := b.week));
    SameDay(a, a.(week := b.week));
  }

  // ---------------------------------------------------------------- one second later

  /** The days a month has in secinc: every fourth year is taken for a leap year. */
  function DayLimit(d: DateTime): nat
  {
    if 1 <= d.month <= 12 then
      var n := MONTHS[d.month - 1];
      if n == 28 && d.year % 4 == 0 then n + 1 else n
    else 30
  }

  /** secinc, when the day is over. */
  function DayInc(d: DateTime): DateTime
  {
    var e := d.(week := (d.week + 1) % 7, day := U16(d.day + 1));
    if e.day <= DayLimit(d) then e
    else if U16(d.month + 1) <= 12 then e.(day := 1, month := U16(d.month + 1))
    else e.(day := 1, month := 1, year := U16(d.year + 1))
  }

  /** secinc */
  function SecInc(d: DateTime): DateTime
  {
    if U16(d.second + 1) < 60 then d.(second := U16(d.second + 1))
    else if U16(d.minute + 1) < 60 then d.(second := 0, minute := U16(d.minute + 1))
    else if U16(d.hour + 1) < 24 then d.(second := 0, minute := 0, hour := U16(d.hour + 1))
    else DayInc(d.(second := 0, minute := 0, hour := 0))
  }

  predicate LastSecondOfDay(d: DateTime) { d.hour == 23 && d.minute == 59 && d.second == 59 }

  /** 28 February of a year such as 1900 or 2100, which the fourth-year rule takes for a leap year. */
  predicate ShortFebruary(d: DateTime)
  {
    d.month == 2 && d.day == 28 && d.year % 4 == 0 && !Leap(d.year)
  }

  predicate EndOfTime(d: DateTime) { d.year == WORD16 - 1 && d.month == 12 && d.day == 31 }

  lemma LeapIsFourth(year: nat)
    ensures Leap(year) ==> year % 4 == 0
  {
    Multiples(year);
  }

  lemma DayLimitIs(d: DateTime)
    requires ValidDate(d)
    ensures DayLimit(d) == DaysInMonth(d.year, d.month)
      + if d.month == 2 && d.year % 4 == 0 && !Leap(d.year) then 1 else 0
  {
    LeapIsFourth(d.year);
    hide Leap;
  }

  lemma DayIncIsNext(d: DateTime)
    requires ValidDate(d)
    ensures !EndOfTime(d) ==> DayInc(d).month <= 13 && DayNumber(DayInc(d)) == DayNumber(d) + 1
    ensures ValidDate(DayInc(d)) <==> !ShortFebruary(d)
  {
    DayLimitIs(d);
    DecemberEnds(d.year);
    LeapIsFourth(d.year);
    hide DayLimit, DaysInMonth, Leap;
    hide DaysBeforeYear, YearLength;
  }

  lemma DecemberEnds(year: nat)
    ensures DaysBeforeMonth(year, 12) + 31 == YearLength(year) && DaysInMonth(year, 12) == 31
    ensures DaysBeforeYear(year + 1) == DaysBeforeYear(year) + YearLength(year)
    ensures DaysBeforeMonth(year, 1) == 0
  {
    MonthTableRest(year);
    hide Leap;
  }

  lemma SameMonthDays(d: DateTime, e: DateTime)
    requires d.month <= 13 && SameDate(d, e)
    ensures DayNumber(d) == DayNumber(e) && (ValidDate(d) <==> ValidDate(e)) && (ShortFebruary(d) <==> ShortFebruary(e))
  {
  }

  /** One step of secinc is one more second, and leads to a valid date in all cases but one. */
  lemma SecIncIsNext(d: DateTime)
    requires Valid(d)
    ensures !(LastSecondOfDay(d) && EndOfTime(d)) ==>
      (SecInc(d).month <= 13 && Seconds(SecInc(d)) == Seconds(d) + 1)
    ensures Valid(SecInc(d)) <==> !(LastSecondOfDay(d) && ShortFebruary(d))
  {
    var e := d.(second := 0, minute := 0, hour := 0);
    SameMonthDays(d, e);
    SameMonthDays(d, SecInc(d).(year := d.year, month := d.month, day := d.day));
    DayIncIsNext(e);
    hide DayInc, DayNumber, ValidDate, ShortFebruary;
    if LastSecondOfDay(d) { DayIncTime(e); }
  }

  lemma DayIncTime(d: DateTime)
    ensures DayInc(d).hour == d.hour && DayInc(d).minute == d.minute && DayInc(d).second == d.second
    ensures DayInc(d).week == (d.week + 1) % 7
    ensures DayInc(d).year >= d.year || DayInc(d).year == U16(d.year + 1)
  {
  }

  // ---------------------------------------------------------------- many seconds later

  function Ticks(d: DateTime, n: nat): DateTime
  {
    if n == 0 then d else SecInc(Ticks(d, n - 1))
  }

  /** The last second of February in a year such as 1900 or 2100. */
  function ShortEnd(year: nat): (d: DateTime) { DateTime(year, 2, 0, 28, 23, 59, 59) }

  predicate ShortYear(year: nat) { year < WORD16 && year % 4 == 0 && !Leap(year) }

  /** Such a second lies in a stretch of time. */
  ghost predicate Passes(start: int, to: int)
  {
    exists y: nat :: ShortYear(y) && start <= Seconds(ShortEnd(y)) < to
  }

  lemma ShortEndIs(d: DateTime)
    requires Valid(d) && LastSecondOfDay(d) && ShortFebruary(d)
    ensures ShortYear(d.year) && Seconds(d) == Seconds(ShortEnd(d.year))
  {
    SecondsAgree(d, ShortEnd(d.year));
    hide Seconds, Leap;
  }

  lemma ShortEndOnly(d: DateTime, year: nat)
    requires Valid(d) && ShortYear(year) && Seconds(d) == Seconds(ShortEnd(year))
    ensures LastSecondOfDay(d) && ShortFebruary(d)
  {
    SecondsDetermine(d, ShortEnd(year));
    hide Seconds, Leap;
  }

  lemma SecondsAgree(a: DateTime, b: DateTime)
    requires Valid(a) && Valid(b) && a.(week := b.week) == b
    ensures Seconds(a) == Seconds(b)
  {
    SameDay(a, b);
    hide DayNumber;
  }

  lemma EndOfTimeIs(d: DateTime)
    requires Valid(d) && LastSecondOfDay(d) && EndOfTime(d)
    ensures Seconds(d) + 1 == LIMIT
  {
    DecemberEnds(d.year);
    DaysBeforeYearIs(d.year);
    LastLeapYears(d.year);
    hide DaysBeforeYear, DaysBeforeMonth, DaysInMonth, LeapYears, Leap;
  }

  lemma LastLeapYears(year: nat)
    requires year == 65535
    ensures LeapYears(year) == 15892 && YearLength(year) == 365
  {
  }

  lemma {:induction false} TicksGo(d: DateTime, n: nat)
    requires Valid(d) && Seconds(d) + n < LIMIT && !Passes(Seconds(d), Seconds(d) + n)
    ensures Valid(Ticks(d, n)) && Seconds(Ticks(d, n)) == Seconds(d) + n
  {
    assert d.month <= 13;
    hide Seconds, SecInc, DaysInMonth, Leap, LastSecondOfDay, ShortFebruary, EndOfTime;
    if n > 0 {
      TicksGo(d, n - 1);
      var e := Ticks(d, n - 1);
      if LastSecondOfDay(e) && ShortFebruary(e) { ShortEndIs(e); }
      if LastSecondOfDay(e) && EndOfTime(e) { EndOfTimeIs(e); }
      SecIncIsNext(e);
    }
  }

  /** n seconds of secinc lead to the date n seconds later, wherever they pass no such second. */
  lemma TicksAgree(d: DateTime, n: nat)
    requires Valid(d) && Seconds(d) + n < LIMIT && !Passes(Seconds(d), Seconds(d) + n)
    ensures Ticks(d, n) == FromSeconds(Seconds(d) + n, Ticks(d, n).week)
  {
    hide Ticks, FromSeconds, Seconds, DaysInMonth;
    TicksGo(d, n);
    DateOf(Ticks(d, n), Seconds(d) + n);
  }

  lemma TicksReach(d: DateTime, n: nat, week: nat)
    requires Valid(d) && Seconds(d) + n < LIMIT && !Passes(Seconds(d), Seconds(d) + n)
    ensures FromSeconds(Seconds(d) + n, week) == Ticks(d, n).(week := week)
  {
    hide Ticks, FromSeconds, DayNumber, DaysInMonth;
    TicksGo(d, n);
    var e := Ticks(d, n);
    SameDay(e, e.(week := week));
    DateOf(e.(week := week), Seconds(d) + n);
  }

  lemma DateOf(e: DateTime, total: int)
    requires Valid(e) && Seconds(e) == total
    ensures e == FromSeconds(total, e.week)
  {
    DateBack(e);
    hide FromSeconds, Seconds;
  }

  /** All the dates on the way are valid exactly then. */
  lemma TicksStayValid(d: DateTime, n: nat)
    requires Valid(d) && Seconds(d) + n < LIMIT
    ensures (forall m: nat :: m <= n ==> Valid(Ticks(d, m))) <==> !Passes(Seconds(d), Seconds(d) + n)
  {
    assert d.month <= 13;
    hide Seconds, Valid, Ticks, ShortYear;
    if Passes(Seconds(d), Seconds(d) + n) {
      TicksFail(d, n);
    } else {
      forall m: nat | m <= n ensures Valid(Ticks(d, m)) { TicksGo(d, m); }
    }
  }

  /** The first of them ends the valid dates. */
  lemma {:induction false} TicksFail(d: DateTime, n: nat)
    requires Valid(d) && Seconds(d) + n < LIMIT && Passes(Seconds(d), Seconds(d) + n)
    ensures exists m: nat :: m <= n && !Valid(Ticks(d, m))
    decreases n
  {
    assert d.month <= 13;
    hide Seconds, SecInc, DaysInMonth, Leap, ShortYear, LastSecondOfDay, ShortFebruary, EndOfTime;
    var y: nat :| ShortYear(y) && Seconds(d) <= Seconds(ShortEnd(y)) < Seconds(d) + n;
    if Passes(Seconds(d), Seconds(d) + (n - 1)) {
      TicksFail(d, n - 1);
    } else {
      TicksGo(d, n - 1);
      var e := Ticks(d, n - 1);
      ShortEndOnly(e, y);
      SecIncIsNext(e);
      assert !Valid(Ticks(d, n));
    }
  }

  // ---------------------------------------------------------------- the years around now

  /** The count at the beginning of 1 March 2100. */
  const MARCH2100 := 767069 * DAY

  lemma FebruaryEnds(year: nat)
    requires year == 2100
    ensures Valid(ShortEnd(year)) && Seconds(ShortEnd(year)) + 1 == MARCH2100
  {
    hide DaysBeforeYear, DaysBeforeMonth;
    DaysBeforeYearIs(year);
    MonthTable(year);
  }

  lemma ShortYears(year: nat)
    requires ShortYear(year) && year >= 1901
    ensures year >= 2100
  {
  }

  lemma ShortEndIsValid(year: nat)
    requires year < WORD16
    ensures Valid(ShortEnd(year))
  {
  }

  lemma ShortEndsOrdered(a: nat, b: nat)
    requires a <= b < WORD16
    ensures Seconds(ShortEnd(a)) <= Seconds(ShortEnd(b))
  {
    if a < b { SecondsIncrease(ShortEnd(a), ShortEnd(b)); }
    hide Seconds, Leap;
  }

  lemma ShortEndsLater(d: DateTime, year: nat)
    requires Valid(d) && d.year >= 1901 && ShortYear(year) && Seconds(d) <= Seconds(ShortEnd(year))
    ensures MARCH2100 - 1 <= Seconds(ShortEnd(year))
  {
    hide Seconds, Leap, DaysInMonth;
    ShortEndIsValid(year);
    if year < d.year {
      SecondsIncrease(ShortEnd(year), d);
    }
    ShortYears(year);
    FebruaryEnds(2100);
    ShortEndsOrdered(2100, year);
  }

  /** From 1901 on the first of those seconds is the end of 28 February 2100, so until then nothing
      goes wrong, and then it does. */
  lemma NoneBefore2100(d: DateTime, n: nat)
    requires Valid(d) && d.year >= 1901 && Seconds(d) < MARCH2100
    ensures Passes(Seconds(d), Seconds(d) + n) <==> Seconds(d) + n >= MARCH2100
  {
    FebruaryEnds(2100);
    hide Seconds, DaysInMonth;
    assert ShortYear(2100);
    forall y: nat | ShortYear(y) && Seconds(d) <= Seconds(ShortEnd(y)) ensures MARCH2100 - 1 <= Seconds(ShortEnd(y)) {
      ShortEndsLater(d, y);
    }
  }

  lemma TicksLastUntil2100(d: DateTime, n: nat)
    requires Valid(d) && d.year >= 1901 && Seconds(d) < MARCH2100
    ensures (forall m: nat :: m <= n ==> Valid(Ticks(d, m))) <==> Seconds(d) + n < MARCH2100
  {
    assert d.month <= 13;
    hide Seconds, Valid, Ticks, Passes;
    var k := if Seconds(d) + n < MARCH2100 then n else MARCH2100 - Seconds(d);
    NoneBefore2100(d, k);
    TicksStayValid(d, k);
  }

  /** The day of the week goes on by one at every midnight. */
  lemma SecIncWeek(d: DateTime)
    requires Valid(d)
    ensures SecInc(d).week == if LastSecondOfDay(d) then (d.week + 1) % 7 else d.week
  {
    DayIncTime(d.(second := 0, minute := 0, hour := 0));
    hide DayInc, DaysInMonth;
  }

  // ---------------------------------------------------------------- the tick of the calendar

  /** What of _CALENDAR calendar_inc uses. */
  datatype Clock = Clock(dt: DateTime, steps: nat)

  /** calendar_inc: 564 tenths of a step a second. */
  function Inc(c: Clock): Clock
  {
    if c.steps + 10 < 564 then c.(steps := c.steps + 10) else Clock(SecInc(c.dt), c.steps + 10 - 564)
  }

  function Incs(c: Clock, n: nat): Clock
  {
    if n == 0 then c else Inc(Incs(c, n - 1))
  }

  lemma TenMore(x: nat)
    ensures (x + 10) / 564 == x / 564 + (if x % 564 + 10 < 564 then 0 else 1)
    ensures (x + 10) % 564 == x % 564 + 10 - (if x % 564 + 10 < 564 then 0 else 564)
  {
  }

  /** n calls of calendar_inc are exactly (steps + 10 n) div 564 seconds. */
  lemma {:induction false} IncsAreTicks(c: Clock, n: nat)
    requires c.steps < 564
    ensures Incs(c, n) == Clock(Ticks(c.dt, (c.steps + 10 * n) / 564), (c.steps + 10 * n) % 564)
  {
    hide SecInc;
    if n > 0 {
      IncsAreTicks(c, n - 1);
      TenMore(c.steps + 10 * (n - 1));
    }
  }

  /** n calls of calendar_inc: exactly that many seconds have gone by. */
  lemma IncsKeepTime(c: Clock, n: nat)
    requires c.steps < 564 && Valid(c.dt) && Seconds(c.dt) + (c.steps + 10 * n) / 564 < LIMIT
    requires !Passes(Seconds(c.dt), Seconds(c.dt) + (c.steps + 10 * n) / 564)
    ensures var r := Incs(c, n);
      && Valid(r.dt) && r.steps < 564
      && (Seconds(r.dt) - Seconds(c.dt)) * 564 + r.steps - c.steps == 10 * n
  {
    IncsAreTicks(c, n);
    TicksGo(c.dt, (c.steps + 10 * n) / 564);
    hide Seconds, DaysInMonth, Incs, Ticks;
  }

  // ---------------------------------------------------------------- binary-coded decimal

  /** AdjustAfterMultiply and AdjustBeforeDivision on 8-bit values. */
  function ToBcd(v: nat): (b: nat)
    ensures b < 256
  {
    (v / 10 * 16 + v % 10) % 256
  }

  function FromBcd(b: nat): (v: nat)
    ensures v < 256
  {
    (b / 16 * 10 + b % 16) % 256
  }

  /** The six bytes of the clock chip. */
  datatype Bcd = Bcd(year: nat, monthWeek: nat, day: nat, hour: nat, minute: nat, second: nat)

  predicate AreBytes(b: Bcd)
  {
    b.year < 256 && b.monthWeek < 256 && b.day < 256 && b.hour < 256 && b.minute < 256 && b.second < 256
  }

  /** date2deg */
  function FromBytes(b: Bcd): DateTime
  {
    var year := 1900 + FromBcd(b.year);
    DateTime(if year < 1980 then year + 100 else year, b.monthWeek / 16, b.monthWeek % 16, FromBcd(b.day),
             FromBcd(b.hour), FromBcd(b.minute), FromBcd(b.second))
  }

  /** date2bcd */
  function ToBytes(d: DateTime): Bcd
  {
    Bcd(ToBcd(d.year % 100), (d.month * 16 + d.week) % 256, ToBcd(d.day % 256), ToBcd(d.hour % 256),
        ToBcd(d.minute % 256), ToBcd(d.second % 256))
  }

  lemma BcdBack(v: nat)
    requires v < 100
    ensures FromBcd(ToBcd(v)) == v
  {
    NibblesForth(v / 10, v % 10);
    assert ToBcd(v) / 16 == v / 10 && ToBcd(v) % 16 == v % 10;
    hide ToBcd;
  }

  /** A byte of two decimal digits, the higher one in the high half. */
  predicate TwoDigits(b: nat, tens: nat, ones: nat)
  {
    tens < 10 && ones < 10 && b == 0x10 * tens + ones
  }

  lemma BcdIsDigits(v: nat)
    requires v < 100
    ensures v % 256 == v && TwoDigits(ToBcd(v), v / 10, v % 10)
  {
  }

  lemma MonthAndWeek(month: nat, week: nat)
    requires month <= 12 && week < 16
    ensures (month * 16 + week) % 256 == 0x10 * month + week
  {
  }

  lemma ValidFields(d: DateTime)
    requires Valid(d)
    ensures d.month <= 12 && d.day < 100 && d.hour < 100 && d.minute < 100 && d.second < 100
  {
    hide Leap;
  }

  /** The six bytes of a valid date: the last two digits of the year, month and weekday in one byte, and two digits
      each of the rest. */
  lemma BytesAreDigits(d: DateTime)
    requires Valid(d) && d.week < 16
    ensures var b := ToBytes(d);
      && TwoDigits(b.year, d.year / 10 % 10, d.year % 10) && b.monthWeek == 0x10 * d.month + d.week
      && TwoDigits(b.day, d.day / 10, d.day % 10) && TwoDigits(b.hour, d.hour / 10, d.hour % 10)
      && TwoDigits(b.minute, d.minute / 10, d.minute % 10) && TwoDigits(b.second, d.second / 10, d.second % 10)
  {
    hide ToBcd, DaysInMonth, TwoDigits, Valid;
    ValidFields(d);
    MonthAndWeek(d.month, d.week);
    BcdIsDigits(d.year % 100);
    BcdIsDigits(d.day);
    BcdIsDigits(d.hour);
    BcdIsDigits(d.minute);
    BcdIsDigits(d.second);
    YearDigits(d.year);
  }

  lemma YearDigits(year: nat)
    ensures year % 100 / 10 == year / 10 % 10 && year % 100 % 10 == year % 10
  {
  }

  lemma Digits(hi: nat, lo: nat)
    requires hi < 16 && lo < 16
    ensures lo < 10 ==> (hi * 10 + lo) / 10 == hi && (hi * 10 + lo) % 10 == lo
    ensures lo >= 10 ==> (hi * 10 + lo) / 10 == hi + 1 && (hi * 10 + lo) % 10 == lo - 10
  {
  }

  lemma Nibbles(hi: nat, lo: nat)
    requires hi < 16 && lo < 16
    ensures (hi * 16 + lo) % 256 == hi * 16 + lo && ((hi + 1) * 16 + (lo - 10)) % 256 != hi * 16 + lo
  {
  }

  /** A byte is the BCD form of its value exactly when its low digit is one. */
  lemma BcdForth(b: nat)
    requires b < 256
    ensures ToBcd(FromBcd(b)) == b <==> b % 16 < 10
  {
    Digits(b / 16, b % 16);
    Nibbles(b / 16, b % 16);
    assert FromBcd(b) == b / 16 * 10 + b % 16;
  }

  lemma CenturyBack(year: nat)
    requires year < WORD16
    ensures (if 1900 + year % 100 < 1980 then 2000 + year % 100 else 1900 + year % 100) == year <==> 1980 <= year < 2080
  {
  }

  /** Whatever bytes calendar_set is given, the year is one of 1980 to 2079. */
  lemma YearRange(b: Bcd)
    requires AreBytes(b)
    ensures 1980 <= FromBytes(b).year <= 2079
  {
  }

  /** A valid date survives the way through the clock chip exactly in those years. */
  lemma DateSurvives(d: DateTime)
    requires Valid(d) && d.week < 16
    ensures FromBytes(ToBytes(d)) == d <==> 1980 <= d.year <= 2079
  {
    hide ToBcd, FromBcd, DaysInMonth;
    ValueSurvives(d.year % 100);
    ValueSurvives(d.day);
    ValueSurvives(d.hour);
    ValueSurvives(d.minute);
    ValueSurvives(d.second);
    NibblesForth(d.month, d.week);
    CenturyBack(d.year);
  }

  lemma ValueSurvives(v: nat)
    requires v < 100
    ensures v % 256 == v && FromBcd(ToBcd(v)) == v
  {
    hide ToBcd, FromBcd;
    BcdBack(v);
  }

  lemma NibblesForth(high: nat, low: nat)
    requires high < 16 && low < 16
    ensures var x := (high * 16 + low) % 256; x / 16 == high && x % 16 == low
  {
  }

  predicate LowDigit(b: nat) { b % 16 < 10 }

  lemma ByteSurvives(b: nat)
    requires b < 256
    ensures ToBcd(FromBcd(b) % 256) == ToBcd(FromBcd(b)) && (ToBcd(FromBcd(b)) == b <==> LowDigit(b))
  {
    hide ToBcd, FromBcd;
    BcdForth(b);
    WholeByte(FromBcd(b));
  }

  lemma WholeByte(v: nat)
    requires v < 256
    ensures v % 256 == v
  {
  }

  /** Bytes survive exactly when their low digits are decimal and the year has two decimal digits. */
  lemma BytesSurvive(b: Bcd)
    requires AreBytes(b)
    ensures ToBytes(FromBytes(b)) == b <==> (LowDigit(b.year) && b.year < 160 && LowDigit(b.day) &&
                                             LowDigit(b.hour) && LowDigit(b.minute) && LowDigit(b.second))
  {
    hide ToBcd, FromBcd, LowDigit;
    ByteSurvives(b.day);
    ByteSurvives(b.hour);
    ByteSurvives(b.minute);
    ByteSurvives(b.second);
    YearForth(b.year);
    NibblesBack(b.monthWeek);
  }

  lemma NibblesBack(x: nat)
    requires x < 256
    ensures (x / 16 * 16 + x % 16) % 256 == x
  {
  }

  lemma YearForth(y: nat)
    requires y < 256
    ensures var year := 1900 + FromBcd(y);
      ToBcd((if year < 1980 then year + 100 else year) % 100) == y <==> (LowDigit(y) && y < 160)
  {
    var v := FromBcd(y);
    SmallValue(y);
    hide FromBcd, ToBcd, LowDigit;
    LastTwo(v);
    if v < 100 { ByteSurvives(y); } else { LaterCentury(y); }
  }

  lemma SmallValue(y: nat)
    requires y < 256
    ensures FromBcd(y) < 200 && (LowDigit(y) ==> (FromBcd(y) < 100 <==> y < 160))
  {
  }

  lemma LastTwo(v: nat)
    requires v < 200
    ensures (1900 + v) % 100 == (2000 + v) % 100 == if v < 100 then v else v - 100
  {
  }

  lemma LaterCentury(y: nat)
    requires y < 256 && FromBcd(y) >= 100
    ensures ToBcd(FromBcd(y) - 100) < 144 <= y && y / 16 >= 9
  {
    assert FromBcd(y) == y / 16 * 10 + y % 16;
    SmallBcd(FromBcd(y) - 100);
    hide ToBcd, FromBcd;
  }

  lemma SmallBcd(w: nat)
    requires w < 70
    ensures ToBcd(w) < 144
  {
    assert w / 10 < 7 && w % 10 < 10;
  }
}
