/** calendar.c as it works: dates whose fields are updated in place, and loops that count days. */
module Calendar {
  import opened Bytes
  import opened CInt
  import opened Dates
  import opened DateProofs

  /** _SYSTIME, without its milliseconds, which the calendar does not use. */
  class SysTime {
    var year: nat
    var month: nat
    var week: nat
    var day: nat
    var hour: nat
    var minute: nat
    var second: nat

    ghost function Value(): DateTime
      reads this
    {
      DateTime(year, month, week, day, hour, minute, second)
    }

    constructor (d: DateTime)
      ensures Value() == d
    {
      year, month, week, day, hour, minute, second := d.year, d.month, d.week, d.day, d.hour, d.minute, d.second;
    }

    /** The loops of convertDateTimeToSeconds. The table of month lengths ends with December. */
    method CountDays() returns (days: int)
      requires month <= 13
      ensures days == DayNumber(Value())
    {
      hide YearLength, DaysInMonth;
      var total, y, m := 0, 0, 1;
      while y < year
        invariant y <= year && total == DaysBeforeYear(y)
      {
        total := total + YearLength(y);
        y := y + 1;
      }
      while m < month
        invariant 1 <= m && (m <= month || m == 1) && total == DaysBeforeYear(year) + DaysBeforeMonth(year, m)
        decreases month - m
      {
        total := total + DaysInMonth(year, m);
        m := m + 1;
      }
      days := total + (day - 1);
    }

    /** convertDateTimeToSeconds */
    method ToSeconds() returns (total: int)
      requires month <= 13
      ensures total == Seconds(Value())
    {
      hide DayNumber;
      var days := CountDays();
      total := days * 86400;
      total := total + hour * 3600;
      total := total + minute * 60;
      total := total + second;
    }

    /** The first loop of convertSecondsToDateTime. */
    method FindYear(days: int) returns (rest: int)
      modifies this`year
      ensures year < WORD16 && Found(rest, year) == YearSearch(days, 0)
    {
      hide YearLength;
      year, rest := 0, days;
      while true
        invariant year < WORD16 && YearSearch(days, 0) == YearSearch(rest, year)
        decreases rest
      {
        var length := YearLength(year);
        if rest >= length {
          rest := rest - length;
          year := U16(year + 1);
        } else {
          break;
        }
      }
    }

    /** The second loop: the days left fit in the year, so the month found is one of twelve. */
    method FindMonth(days: int) returns (rest: int)
      requires days < YearLength(year)
      modifies this`month
      ensures days < DaysBeforeMonth(year, 13) - DaysBeforeMonth(year, 1)
      ensures 1 <= month <= 12 && Found(rest, month) == MonthSearch(year, days, 1)
    {
      hide YearLength, DaysBeforeMonth, MonthSearch, DaysInMonth;
      YearFits(year, days);
      month, rest := 1, days;
      while true
        invariant 1 <= month <= 12 && rest < DaysBeforeMonth(year, 13) - DaysBeforeMonth(year, month)
        invariant MonthSearch(year, days, 1) == MonthSearch(year, rest, month)
        decreases 12 - month
      {
        MonthStep(year, rest, month);
        var length := DaysInMonth(year, month);
        if rest >= length {
          rest := rest - length;
          month := month + 1;
        } else {
          break;
        }
      }
    }

    /** convertSecondsToDateTime */
    method SetSeconds(total: int)
      modifies this
      ensures Value() == FromSeconds(total, old(week))
    {
      hide YearSearch, MonthSearch, Quotient, Remainder, U16, YearLength, DaysBeforeMonth;
      var days := Quotient(total, 86400);
      var rest := Remainder(total, 86400);
      hour := U16(Quotient(rest, 3600));
      rest := Remainder(rest, 3600);
      minute := U16(Quotient(rest, 60));
      second := U16(Remainder(rest, 60));
      days := FindYear(days);
      days := FindMonth(days);
      day := U16(days + 1);
    }

    /** secinc */
    method SecInc()
      modifies this
      ensures Value() == DateProofs.SecInc(old(Value()))
    {
      hide U16;
      second := U16(second + 1);
      if second < 60 { return; }
      second := 0;
      minute := U16(minute + 1);
      if minute < 60 { return; }
      minute := 0;
      hour := U16(hour + 1);
      if hour < 24 { return; }
      hour := 0;
      DayInc();
    }

    /** The rest of secinc: a new day. */
    method DayInc()
      modifies this
      ensures Value() == DateProofs.DayInc(old(Value()))
    {
      hide U16;
      var daylimit := 30;
      if 0 < month && month - 1 < 12 {
        daylimit := MONTHS[month - 1];
        if daylimit == 28 && year % 4 == 0 {
          daylimit := daylimit + 1;
        }
      }
      week := (week + 1) % 7;
      day := U16(day + 1);
      if day <= daylimit { return; }
      day := 1;
      month := U16(month + 1);
      if month <= 12 { return; }
      month := 1;
      year := U16(year + 1);
    }

    /** date2deg */
    method SetBcd(bcd: array<byte>)
      requires bcd.Length == 6
      modifies this
      ensures Value() == FromBytes(View(bcd))
    {
      hide FromBcd;
      var y := 1900 + FromBcd(bcd[0]);
      if y < 1980 {
        y := y + 100;
      }
      year, week, month := y, bcd[1] % 16, bcd[1] / 16;
      day, hour, minute, second := FromBcd(bcd[2]), FromBcd(bcd[3]), FromBcd(bcd[4]), FromBcd(bcd[5]);
    }

    /** date2bcd */
    method GetBcd(bcd: array<byte>)
      requires bcd.Length == 6
      modifies bcd
      ensures View(bcd) == ToBytes(Value())
    {
      hide ToBcd;
      bcd[0] := ToBcd(year % 100);
      bcd[1] := (month * 16 + week) % 256;
      bcd[2] := ToBcd(day % 256);
      bcd[3] := ToBcd(hour % 256);
      bcd[4] := ToBcd(minute % 256);
      bcd[5] := ToBcd(second % 256);
    }
  }

  lemma MonthStep(year: nat, days: int, month: nat)
    requires 1 <= month <= 12 && days < DaysBeforeMonth(year, 13) - DaysBeforeMonth(year, month)
    ensures days < DaysInMonth(year, month) ==> MonthSearch(year, days, month) == Found(days, month)
    ensures days >= DaysInMonth(year, month) ==> month < 12
    ensures days >= DaysInMonth(year, month) ==>
      (days - DaysInMonth(year, month) < DaysBeforeMonth(year, 13) - DaysBeforeMonth(year, month + 1) &&
       MonthSearch(year, days, month) == MonthSearch(year, days - DaysInMonth(year, month), month + 1))
  {
    hide DaysInMonth;
  }

  ghost function View(bcd: array<byte>): Bcd
    requires bcd.Length == 6
    reads bcd
  {
    Bcd(bcd[0], bcd[1], bcd[2], bcd[3], bcd[4], bcd[5])
  }

  /** calctimediff, whose result calendar_set keeps as the offset of the virtual calendar. */
  method CalcTimeDiff(time1: SysTime, time2: SysTime) returns (diff: int)
    requires time1.month <= 13 && time2.month <= 13
    ensures diff == Seconds(time1.Value()) - Seconds(time2.Value())
  {
    hide Seconds;
    var a := time1.ToSeconds();
    var b := time2.ToSeconds();
    diff := a - b;
  }

  /** addtimediff */
  method AddTimeDiff(timebase: SysTime, totalseconds: int)
    requires timebase.month <= 13
    modifies timebase
    ensures timebase.Value() == FromSeconds(old(Seconds(timebase.Value())) + totalseconds, old(timebase.week))
  {
    hide Seconds, FromSeconds;
    var a := timebase.ToSeconds();
    timebase.SetSeconds(a + totalseconds);
  }

  /** calendar_set, which keeps how far the date set is ahead of the real one, and a later
      calendar_initialize, which adds that to the real date then: the virtual date has moved on by as many
      seconds as the real one has. If that is not back, and over no end of February that secinc gets wrong, it
      is the date that secinc would have reached; and if the real clock stands, the date that was set. */
  method Resume(date: SysTime, atSet: SysTime, actual: SysTime)
    requires date.month <= 13 && atSet.month <= 13 && actual.month <= 13
    modifies actual
    ensures var start, elapsed := old(Seconds(date.Value())), old(Seconds(actual.Value()) - Seconds(atSet.Value()));
      && actual.Value() == FromSeconds(start + elapsed, old(actual.week))
      && (elapsed == 0 && old(Valid(date.Value())) ==>
        actual.Value() == old(date.Value()).(week := old(actual.week)))
      && (elapsed >= 0 && old(Valid(date.Value())) && start + elapsed < LIMIT &&
          !Passes(start, start + elapsed) ==>
        actual.Value() == Ticks(old(date.Value()), elapsed).(week := old(actual.week)))
  {
    hide Seconds, FromSeconds, DaysInMonth, YearLength, Passes, Ticks, Valid;
    ghost var start := date.Value();
    ghost var elapsed := Seconds(actual.Value()) - Seconds(atSet.Value());
    var offset := CalcTimeDiff(date, atSet);
    AddTimeDiff(actual, offset);
    if elapsed == 0 && Valid(start) { DifferenceAdds(start, old(actual.Value())); }
    if elapsed >= 0 && Valid(start) && Seconds(start) + elapsed < LIMIT
      && !Passes(Seconds(start), Seconds(start) + elapsed) {
      TicksReach(start, elapsed, old(actual.week));
    }
  }

  /** The part of _CALENDAR that time moves. */
  class Ticker {
    const dt: SysTime
    var steps: nat

    constructor (dt: SysTime)
      ensures this.dt == dt && steps == 0
    {
      this.dt, steps := dt, 0;
    }

    ghost function Value(): Clock
      reads this, dt
    {
      Clock(dt.Value(), steps)
    }

    /** calendar_inc */
    method Inc()
      modifies this, dt
      ensures Value() == DateProofs.Inc(old(Value()))
    {
      steps := steps + 10;
      if steps < 564 { return; }
      steps := steps - 564;
      dt.SecInc();
    }

    /** n frames of the emulator: time in the emulated calendar has advanced by exactly
        (steps + 10 n) div 564 seconds. */
    method Frames(n: nat)
      requires steps < 564 && Valid(dt.Value()) && Seconds(dt.Value()) + (steps + 10 * n) / 564 < LIMIT
      requires !Passes(Seconds(dt.Value()), Seconds(dt.Value()) + (steps + 10 * n) / 564)
      modifies this, dt
      ensures Valid(dt.Value()) && steps == (old(steps) + 10 * n) % 564
      ensures Seconds(dt.Value()) == old(Seconds(dt.Value())) + (old(steps) + 10 * n) / 564
    {
      ghost var c, ticks := Value(), (steps + 10 * n) / 564;
      hide Ticks, Incs, Seconds, DaysInMonth;
      RunFrames(n);
      IncsAreTicks(c, n);
      TicksGo(c.dt, ticks);
    }

    method RunFrames(n: nat)
      modifies this, dt
      ensures Value() == Incs(old(Value()), n)
    {
      hide DateProofs.Inc;
      for i := 0 to n
        invariant Value() == Incs(old(Value()), i)
      {
        Inc();
      }
    }
  }
}
