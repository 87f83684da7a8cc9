/**
 The calendar of the DP8573A: two-digit years, a two-bit leap phase and a
 weekday counter.  The bulk path of the clock reduces a number of days modulo
 one calendar cycle; `CycleIsIdentity` is what makes that sound.
 */
module Calendar {
  datatype CalendarDate = CalendarDate(
    dayOfMonth: nat,
    month: nat,
    year: nat,
    dayOfWeek: nat,
    leapYear: nat)
  {
    predicate Valid() {
      && 1 <= month <= 12
      && leapYear < 4
      && year < 100
      && 1 <= dayOfWeek <= 7
      && 1 <= dayOfMonth <= DaysInMonth(month, leapYear)
    }
  }

  const CALENDAR_CYCLE_DAYS: nat := 700 * 365 + 175

  function DaysInMonth(month: nat, leapYear: nat): (days: nat)
    ensures 28 <= days <= 31
  {
    if month == 2 then (if leapYear == 0 then 29 else 28)
    else if month == 4 || month == 6 || month == 9 || month == 11 then 30
    else 31
  }

  /** One step of a counter that runs from zero and wraps at its modulus. */
  function CountUp(value: nat, modulus: nat): nat {
    if value + 1 == modulus then 0 else value + 1
  }

  /** The weekday counter runs from one to seven. */
  function NextWeekday(dayOfWeek: nat): nat {
    if dayOfWeek == 7 then 1 else dayOfWeek + 1
  }

  /** The date one day later. */
  function NextDay(date: CalendarDate): (next: CalendarDate)
    ensures date.Valid() ==> next.Valid()
  {
    var weekday := NextWeekday(date.dayOfWeek);
    if date.dayOfMonth < DaysInMonth(date.month, date.leapYear) then
      date.(dayOfMonth := date.dayOfMonth + 1, dayOfWeek := weekday)
    else if date.month < 12 then
      date.(dayOfMonth := 1, month := date.month + 1, dayOfWeek := weekday)
    else
      CalendarDate(1, 1, CountUp(date.year, 100), weekday, CountUp(date.leapYear, 4))
  }

  /** The date a number of days later. */
  function DaysLater(date: CalendarDate, days: nat): (later: CalendarDate)
    ensures date.Valid() ==> later.Valid()
  {
    if days == 0 then date else NextDay(DaysLater(date, days - 1))
  }

  lemma {:induction false} DaysLaterAdds(date: CalendarDate, a: nat, b: nat)
    ensures DaysLater(date, a + b) == DaysLater(DaysLater(date, a), b)
  {
    if b != 0 {
      DaysLaterAdds(date, a, b - 1);
    }
  }

  // Counters that wrap

  function CountOn(value: nat, steps: nat, modulus: nat): nat {
    if steps == 0 then value else CountUp(CountOn(value, steps - 1, modulus), modulus)
  }

  lemma {:induction false} CountOnAdds(value: nat, a: nat, b: nat, modulus: nat)
    ensures CountOn(value, a + b, modulus) == CountOn(CountOn(value, a, modulus), b, modulus)
  {
    if b != 0 {
      CountOnAdds(value, a, b - 1, modulus);
    }
  }

  lemma {:induction false} CountOnOnce(value: nat, steps: nat, modulus: nat)
    requires value < modulus && steps <= modulus
    ensures CountOn(value, steps, modulus)
         == if value + steps < modulus then value + steps else value + steps - modulus
  {
    if steps != 0 {
      CountOnOnce(value, steps - 1, modulus);
    }
  }

  /** Whole rounds bring a counter back. */
  lemma {:induction false} WholeRounds(value: nat, rounds: nat, modulus: nat)
    requires value < modulus
    ensures CountOn(value, rounds * modulus, modulus) == value
  {
    if rounds != 0 {
      WholeRounds(value, rounds - 1, modulus);
      CountOnOnce(value, modulus, modulus);
      CountOnAdds(value, (rounds - 1) * modulus, modulus, modulus);
      assert (rounds - 1) * modulus + modulus == rounds * modulus;
    }
  }

  lemma {:induction false} WeekdayRuns(date: CalendarDate, days: nat)
    requires date.Valid()
    ensures DaysLater(date, days).dayOfWeek == CountOn(date.dayOfWeek - 1, days, 7) + 1
  {
    if days != 0 {
      WeekdayRuns(date, days - 1);
    }
  }

  // Months and years

  /** The date apart from its weekday, which runs on its own. */
  predicate IsDay(date: CalendarDate, dayOfMonth: nat, month: nat, year: nat, leapYear: nat) {
    && date.dayOfMonth == dayOfMonth
    && date.month == month
    && date.year == year
    && date.leapYear == leapYear
  }

  predicate NewYearsDay(date: CalendarDate) {
    date.Valid() && date.month == 1 && date.dayOfMonth == 1
  }

  /** Within a month only the day and the weekday move. */
  lemma {:induction false} WithinMonth(date: CalendarDate, days: nat)
    requires date.Valid() && date.dayOfMonth + days <= DaysInMonth(date.month, date.leapYear)
    ensures IsDay(DaysLater(date, days), date.dayOfMonth + days, date.month, date.year, date.leapYear)
  {
    if days != 0 {
      WithinMonth(date, days - 1);
    }
  }

  /** The next month starts when this one has run out. */
  lemma NextMonth(date: CalendarDate, length: nat)
    requires date.Valid() && date.dayOfMonth == 1 && length == DaysInMonth(date.month, date.leapYear)
    ensures if date.month < 12 then IsDay(DaysLater(date, length), 1, date.month + 1, date.year, date.leapYear)
            else IsDay(DaysLater(date, length), 1, 1, CountUp(date.year, 100), CountUp(date.leapYear, 4))
  {
    WithinMonth(date, length - 1);
  }

  /** The days of a year before its given month. */
  function MonthOffset(month: nat, leapYear: nat): nat
    requires 1 <= month
  {
    if month == 1 then 0 else MonthOffset(month - 1, leapYear) + DaysInMonth(month - 1, leapYear)
  }

  lemma {:induction false} MonthStart(newYear: CalendarDate, month: nat)
    requires NewYearsDay(newYear) && 1 <= month <= 12
    ensures IsDay(DaysLater(newYear, MonthOffset(month, newYear.leapYear)),
                  1, month, newYear.year, newYear.leapYear)
  {
    hide DaysInMonth;
    if month != 1 {
      MonthStart(newYear, month - 1);
      hide DaysLater;
      var offset := MonthOffset(month - 1, newYear.leapYear);
      var length := DaysInMonth(month - 1, newYear.leapYear);
      NextMonth(DaysLater(newYear, offset), length);
      DaysLaterAdds(newYear, offset, length);
    }
  }

  function YearLength(leapYear: nat): nat {
    if leapYear == 0 then 366 else 365
  }

  lemma MonthsMakeAYear(leapYear: nat)
    ensures MonthOffset(12, leapYear) + 31 == YearLength(leapYear)
  {
    assert MonthOffset(2, leapYear) == 31;
    assert MonthOffset(3, leapYear) == 59 + (YearLength(leapYear) - 365);
    assert MonthOffset(4, leapYear) == MonthOffset(3, leapYear) + 31;
    assert MonthOffset(5, leapYear) == MonthOffset(4, leapYear) + 30;
    assert MonthOffset(6, leapYear) == MonthOffset(5, leapYear) + 31;
    assert MonthOffset(7, leapYear) == MonthOffset(6, leapYear) + 30;
    assert MonthOffset(8, leapYear) == MonthOffset(7, leapYear) + 31;
    assert MonthOffset(9, leapYear) == MonthOffset(8, leapYear) + 31;
    assert MonthOffset(10, leapYear) == MonthOffset(9, leapYear) + 30;
    assert MonthOffset(11, leapYear) == MonthOffset(10, leapYear) + 31;
  }

  /** From one New Year's Day to the next. */
  lemma YearLater(newYear: CalendarDate, length: nat)
    requires NewYearsDay(newYear) && length == YearLength(newYear.leapYear)
    ensures IsDay(DaysLater(newYear, length), 1, 1, CountUp(newYear.year, 100), CountUp(newYear.leapYear, 4))
  {
    var offset := MonthOffset(12, newYear.leapYear);
    MonthStart(newYear, 12);
    NextMonth(DaysLater(newYear, offset), 31);
    DaysLaterAdds(newYear, offset, 31);
    MonthsMakeAYear(newYear.leapYear);
  }

  /** The days in a number of years that start in the given leap phase. */
  function YearsLength(leapYear: nat, years: nat): nat {
    if years == 0 then 0 else YearsLength(leapYear, years - 1) + YearLength(CountOn(leapYear, years - 1, 4))
  }

  lemma {:induction false} YearsLater(newYear: CalendarDate, years: nat)
    requires NewYearsDay(newYear)
    ensures IsDay(DaysLater(newYear, YearsLength(newYear.leapYear, years)),
                  1, 1, CountOn(newYear.year, years, 100), CountOn(newYear.leapYear, years, 4))
  {
    if years != 0 {
      YearsLater(newYear, years - 1);
      var before := YearsLength(newYear.leapYear, years - 1);
      var length := YearLength(CountOn(newYear.leapYear, years - 1, 4));
      YearLater(DaysLater(newYear, before), length);
      DaysLaterAdds(newYear, before, length);
    }
  }

  lemma {:induction false} YearsLengthAdds(leapYear: nat, a: nat, b: nat)
    ensures YearsLength(leapYear, a + b) == YearsLength(leapYear, a) + YearsLength(CountOn(leapYear, a, 4), b)
  {
    if b != 0 {
      YearsLengthAdds(leapYear, a, b - 1);
      CountOnAdds(leapYear, a, b - 1, 4);
    }
  }

  /** Four years are 1461 days whatever the leap phase. */
  lemma FourYears(leapYear: nat)
    requires leapYear < 4
    ensures YearsLength(leapYear, 4) == 1461
  {
    assert YearsLength(leapYear, 1) == YearLength(leapYear);
    assert YearsLength(leapYear, 2) == YearsLength(leapYear, 1) + YearLength(CountOn(leapYear, 1, 4));
    assert YearsLength(leapYear, 3) == YearsLength(leapYear, 2) + YearLength(CountOn(leapYear, 2, 4));
    CountOnOnce(leapYear, 1, 4);
    CountOnOnce(leapYear, 2, 4);
    CountOnOnce(leapYear, 3, 4);
  }

  lemma {:induction false} FourYearsRepeat(leapYear: nat, times: nat)
    requires leapYear < 4
    ensures YearsLength(leapYear, times * 4) == 1461 * times
  {
    if times != 0 {
      FourYearsRepeat(leapYear, times - 1);
      WholeRounds(leapYear, times - 1, 4);
      YearsLengthAdds(leapYear, (times - 1) * 4, 4);
      FourYears(leapYear);
    }
  }

  // The calendar cycle

  /** Every date is some days after a New Year's Day of its own year. */
  lemma ReachedFromNewYear(date: CalendarDate) returns (newYear: CalendarDate, days: nat)
    requires date.Valid()
    ensures NewYearsDay(newYear) && DaysLater(newYear, days) == date
  {
    var offset := MonthOffset(date.month, date.leapYear);
    days := offset + date.dayOfMonth - 1;
    var weekday := CountOn(date.dayOfWeek - 1, 6 * days, 7);
    WeekdayRuns(date, 6 * days);
    newYear := CalendarDate(1, 1, date.year, weekday + 1, date.leapYear);
    MonthStart(newYear, date.month);
    DaysLaterAdds(newYear, offset, date.dayOfMonth - 1);
    WithinMonth(DaysLater(newYear, offset), date.dayOfMonth - 1);
    WeekdayRuns(newYear, days);
    CountOnAdds(date.dayOfWeek - 1, 6 * days, days, 7);
    WholeRounds(date.dayOfWeek - 1, days, 7);
  }

  lemma NewYearCycle(newYear: CalendarDate)
    requires NewYearsDay(newYear)
    ensures DaysLater(newYear, CALENDAR_CYCLE_DAYS) == newYear
  {
    var years, weeks := 175 * 4, 36525;
    FourYearsRepeat(newYear.leapYear, 175);
    YearsLater(newYear, years);
    WholeRounds(newYear.leapYear, 175, 4);
    WholeRounds(newYear.year, 7, 100);
    WeekdayRuns(newYear, CALENDAR_CYCLE_DAYS);
    WholeRounds(newYear.dayOfWeek - 1, weeks, 7);
  }

  /** One calendar cycle of days changes nothing: not the weekday, not the leap phase. */
  lemma CycleIsIdentity(date: CalendarDate)
    requires date.Valid()
    ensures DaysLater(date, CALENDAR_CYCLE_DAYS) == date
  {
    var newYear, days := ReachedFromNewYear(date);
    NewYearCycle(newYear);
    DaysLaterAdds(newYear, days, CALENDAR_CYCLE_DAYS);
    DaysLaterAdds(newYear, CALENDAR_CYCLE_DAYS, days);
  }

  lemma {:induction false} CyclesRepeat(date: CalendarDate, days: nat, cycles: nat)
    requires date.Valid()
    ensures DaysLater(date, days + cycles * CALENDAR_CYCLE_DAYS) == DaysLater(date, days)
  {
    if cycles != 0 {
      CyclesRepeat(date, days, cycles - 1);
      DaysLaterAdds(date, days + (cycles - 1) * CALENDAR_CYCLE_DAYS, CALENDAR_CYCLE_DAYS);
      CycleIsIdentity(DaysLater(date, days));
      assert (cycles - 1) * CALENDAR_CYCLE_DAYS + CALENDAR_CYCLE_DAYS == cycles * CALENDAR_CYCLE_DAYS;
    }
  }

  lemma Divide(value: nat, modulus: nat) returns (rest: nat, rounds: nat)
    requires modulus > 0
    ensures value == rest + rounds * modulus && rest == value % modulus
  {
    rest, rounds := value % modulus, value / modulus;
  }

  /** Days may be counted modulo the calendar cycle. */
  lemma DaysModuloCycle(date: CalendarDate, days: nat, cycle: nat)
    requires date.Valid() && cycle == CALENDAR_CYCLE_DAYS
    ensures DaysLater(date, days % cycle) == DaysLater(date, days)
  {
    var rest, cycles := Divide(days, cycle);
    CyclesRepeat(date, rest, cycles);
  }

  /** The month counter keeps its value until the month has run out, and then changes. */
  lemma MonthChanges(date: CalendarDate, days: nat)
    requires date.Valid()
    requires days == DaysInMonth(date.month, date.leapYear) - date.dayOfMonth + 1
    ensures DaysLater(date, days).month != date.month
    ensures forall k: nat :: k < days ==> DaysLater(date, k).month == date.month
  {
    WithinMonth(date, days - 1);
    forall k: nat | k < days
      ensures DaysLater(date, k).month == date.month
    {
      WithinMonth(date, k);
    }
  }
}
