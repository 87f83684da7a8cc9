/**
 What the counters show in a whole turn.  Those that run show every combination of
 their values, days and months as far as they go together; `TurnVisits` says so.
 */
module CounterVisits {
  import opened Options
  import opened Arithmetic
  import opened Calendar
  import opened CounterView

  // Days

  /** Some count brings a counter from one value to another. */
  lemma CountReaches(value: nat, target: nat, modulus: nat) returns (steps: nat)
    requires value < modulus && target < modulus
    ensures steps < modulus && CountOn(value, steps, modulus) == target
  {
    steps := if value <= target then target - value else modulus + target - value;
    CountOnOnce(value, steps, modulus);
  }

  /** Seven rounds of any turn of the date pass every weekday. */
  lemma WeekdayReaches(weekday: nat, target: nat, turn: nat) returns (rounds: nat)
    requires weekday < 7 && target < 7 && (turn == 31 || turn == 1461 || turn == 36525)
    ensures CountOn(weekday, rounds * turn, 7) == target
  {
    var gap := 7 + target - weekday;
    var weeks;
    if turn == 31 {
      rounds, weeks := 5 * gap, 22 * gap;
    } else if turn == 1461 {
      rounds, weeks := 3 * gap, 626 * gap;
    } else {
      rounds, weeks := 6 * gap, 31307 * gap;
    }
    var days := rounds * turn;
    assert days == gap + 7 * weeks;
    CountWeekday(weekday, days);
    UniqueRemainder(weekday + days, weeks + 1, target, 7);
  }

  lemma {:induction false} CountWeekday(weekday: nat, days: nat)
    requires weekday < 7
    ensures CountOn(weekday, days, 7) == (weekday + days) % 7
  {
    if days != 0 {
      CountWeekday(weekday, days - 1);
    }
  }

  /** A day of a month that every cycle has, in the month counter's own terms. */
  predicate DayOfMonth(month: Option<nat>, day: nat, target: nat) {
    1 <= day <= 31 && (month.Some? ==> 1 <= target <= 12 && day <= DaysInMonth(target, 0))
  }

  /** Some day and month of a date turn. */
  lemma CycleVisits(d: DateView, day: nat, month: nat) returns (days: nat)
    requires d.Valid() && d.day.Some? && d.month.Some? && DayOfMonth(d.month, day, month)
    ensures DaysOn(d, days).day == Some(day) && DaysOn(d, days).month == Some(month)
  {
    CycleLeap(d);
    var start, years := CycleStart(d), CycleYears(d);
    var year := CountReaches(start, 0, 4);
    var target := CycleDay(day, month, year);
    IndexBelow(CycleOf(d), years, start);
    IndexBelow(target, years, start);
    days := CountReaches(CycleIndex(CycleOf(d), start), CycleIndex(target, start), DateTurn(d));
    hide DaysInMonth, CycleIndex, CycleStart, CountOn;
    CycleRuns(d, days);
    CycleLeap(DaysOn(d, days));
    IndexInjective(CycleOf(DaysOn(d, days)), target, years, start);
  }

  lemma IndexBelow(c: CycleDay, years: nat, start: nat)
    requires c.Valid(years, start)
    ensures CycleIndex(c, start) < YearsLength(start, years)
  {
    IndexInYear(c, years, start);
    YearsGrow(start, c.year, years);
  }

  /** Whole turns of a date change its weekday at most. */
  lemma TurnsAside(d: DateView, rounds: nat)
    requires d.Valid() && d.day.Some?
    ensures var e := DaysOn(d, rounds * DateTurn(d));
            e.day == d.day && e.month == d.month
  {
    var days := rounds * DateTurn(d);
    if d.month.Some? {
      UniqueRemainder(days, rounds, 0, DateTurn(d));
      CycleReturns(d, days);
    } else {
      WeekdayCounts(d, days);
      WholeRounds(d.day.value - 1, rounds, 31);
    }
  }

  /** A running date shows every day with every month that has it and every weekday. */
  lemma DateVisits(d: DateView, day: nat, month: nat, weekday: nat) returns (days: nat)
    requires d.Valid() && d.day.Some? && DayOfMonth(d.month, day, month) && 1 <= weekday <= 7
    ensures DaysOn(d, days).day == Some(day)
    ensures d.month.Some? ==> DaysOn(d, days).month == Some(month)
    ensures d.weekday.Some? ==> DaysOn(d, days).weekday == Some(weekday)
  {
    WeekdayCounts(d, 0);
    if d.month.Some? {
      days := CycleVisits(d, day, month);
    } else {
      days := CountReaches(d.day.value - 1, day - 1, 31);
    }
    WeekdayCounts(d, days);
    if d.weekday.Some? {
      days := WeekdayVisits(d, days, weekday);
    }
  }

  /** A later day with the same day and month and any weekday. */
  lemma WeekdayVisits(d: DateView, first: nat, weekday: nat) returns (days: nat)
    requires d.Valid() && d.day.Some? && d.weekday.Some? && 1 <= weekday <= 7
    ensures DaysOn(d, days).day == DaysOn(d, first).day && DaysOn(d, days).month == DaysOn(d, first).month
    ensures DaysOn(d, days).weekday == Some(weekday)
  {
    WeekdayCounts(d, first);
    var e := DaysOn(d, first);
    hide DaysOn, DaysInMonth, CountOn, LastDay;
    var rounds := WeekdayReaches(e.weekday.value - 1, weekday - 1, DateTurn(e));
    TurnsAside(e, rounds);
    WeekdayCounts(e, rounds * DateTurn(e));
    days := first + rounds * DateTurn(e);
    DaysOnAdds(d, first, rounds * DateTurn(e));
  }

  // Turns

  lemma {:induction false} DaysOnAdds(d: DateView, a: nat, b: nat)
    ensures DaysOn(d, a + b) == DaysOn(DaysOn(d, a), b)
  {
    hide DayUp;
    if b != 0 {
      DaysOnAdds(d, a, b - 1);
    }
  }

  lemma {:induction false} DaysRepeat(d: DateView, period: nat, rounds: nat, rest: nat)
    requires DaysOn(d, period) == d
    ensures DaysOn(d, rounds * period + rest) == DaysOn(d, rest)
    decreases rounds
  {
    if rounds == 0 {
      assert rounds * period + rest == rest;
    } else {
      assert rounds * period + rest == period + ((rounds - 1) * period + rest);
      DaysOnAdds(d, period, (rounds - 1) * period + rest);
      DaysRepeat(d, period, rounds - 1, rest);
    }
  }

  /** A day of whole turns that shows the wanted date, late enough for a position before the start. */
  lemma DayVisits(v: ClockView, total: nat, late: bool, days: nat) returns (day: nat)
    requires total > 0 && (TimeLevel(v) == 4 ==> DaysOn(v.date, total) == v.date)
    ensures day <= total && (late ==> day > 0) && (day == total ==> late)
    ensures TimeLevel(v) == 4 ==> DaysOn(v.date, day) == DaysOn(v.date, days)
  {
    hide TimeLevel, DaysOn;
    day := 0;
    if TimeLevel(v) == 4 {
      var rounds, rest := Split(days, total);
      DaysRepeat(v.date, total, rounds, rest);
      DaysRepeat(v.date, total, 1, 0);
      day := rest;
    }
    if late && day == 0 {
      day := if TimeLevel(v) == 4 then total else 1;
    }
  }

  /** In whole turns every position comes with every date that the date ever shows. */
  lemma TurnVisits(v: ClockView, milliseconds: nat, position: nat, days: nat) returns (i: nat)
    requires v.Valid() && milliseconds > 0 && TimeReturns(v, milliseconds) && position < Turn(TimeLevel(v))
    ensures i <= milliseconds
    ensures var w := ViewAfter(v, i);
            && w.Valid() && SameAbove(v, w) && Position(w) == position
            && w.date == if TimeLevel(v) == 4 then DaysOn(v.date, days) else v.date
  {
    var turn := Turn(TimeLevel(v));
    var start := Position(v);
    PositionInjective(v, v);
    var total, none := Split(milliseconds, turn);
    UniqueRemainder(milliseconds, total, 0, turn);
    assert total > 0;
    if TimeLevel(v) == 4 {
      DateReturnsExactly(v.date, total);
    }
    var day := DayVisits(v, total, position < start, days);
    i := Until(start, position, day, turn, total);
    VisitAt(v, i, start, position, day, turn);
  }

  /** What the counters show that many days and that position on. */
  lemma VisitAt(v: ClockView, i: nat, start: nat, position: nat, day: nat, turn: nat)
    requires v.Valid() && start == Position(v) && turn == Turn(TimeLevel(v))
    requires position < turn && start + i == day * turn + position
    ensures var w := ViewAfter(v, i);
            && w.Valid() && SameAbove(v, w) && Position(w) == position
            && w.date == if TimeLevel(v) == 4 then DaysOn(v.date, day) else v.date
  {
    var rounds := ViewRuns(v, i);
    var w := ViewAfter(v, i);
    PositionInjective(w, w);
    UniqueRemainder(start + i, rounds, Position(w), turn);
    UniqueRemainder(start + i, day, position, turn);
  }

  lemma Until(start: nat, position: nat, day: nat, turn: nat, total: nat) returns (i: nat)
    requires start < turn && position < turn && day <= total
    requires position < start ==> day > 0
    requires day == total ==> position < start
    ensures start + i == day * turn + position && i <= total * turn
  {
    if day > 0 {
      assert day * turn >= turn;
    }
    i := day * turn + position - start;
    if day < total {
      assert (day + 1) * turn <= total * turn;
    }
  }

  /** Hence every time of the running time counters comes with every such date. */
  lemma TimeVisits(v: ClockView, milliseconds: nat, seconds: nat, minutes: nat, hour: nat, days: nat) returns (i: nat)
    requires v.Valid() && milliseconds > 0 && TimeReturns(v, milliseconds) && TimeLevel(v) >= 2
    requires seconds < 60 && minutes < 60 && hour < 24
    ensures i <= milliseconds
    ensures var w := ViewAfter(v, i);
            && w.Valid() && SameAbove(v, w) && w.seconds == Some(seconds)
            && (TimeLevel(v) >= 3 ==> w.minutes == Some(minutes))
            && (TimeLevel(v) >= 4 ==> w.hour == Some(hour))
            && w.date == if TimeLevel(v) == 4 then DaysOn(v.date, days) else v.date
  {
    var level := TimeLevel(v);
    var m, h := if level < 3 then 0 else minutes, if level < 4 then 0 else hour;
    i := TurnVisits(v, milliseconds, 1000 * seconds + 60_000 * m + 3_600_000 * h, days);
    var w := ViewAfter(v, i);
    hide ViewAfter, DateReturns, LastDay, DaysOn;
    SameDigits(w.millisecond, Digit(w.hundredths), Digit(w.seconds),
               if level < 3 then 0 else Digit(w.minutes), if level < 4 then 0 else Digit(w.hour),
               0, 0, seconds, m, h);
  }
}
