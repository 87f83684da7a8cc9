/**
 The counters of a clock some of which hold no number.  A counter that holds
 none stops every carry that reaches it, so the counters below it run in a turn
 of their own.  `ViewReturns` says exactly when such counters are back.
 */
module CounterView {
  import opened Options
  import opened Arithmetic
  import opened Calendar

  datatype DateView = DateView(
    day: Option<nat>,
    month: Option<nat>,
    year: Option<nat>,
    weekday: Option<nat>,
    leap: nat)
  {
    predicate Valid() {
      && Within(day, 1, LastDay(month, leap))
      && Within(month, 1, 12)
      && Within(year, 0, 99)
      && Within(weekday, 1, 7)
      && leap < 4
    }
  }

  datatype ClockView = ClockView(
    millisecond: nat,
    hundredths: Option<nat>,
    seconds: Option<nat>,
    minutes: Option<nat>,
    hour: Option<nat>,
    date: DateView)
  {
    predicate Valid() {
      && millisecond < 10
      && Within(hundredths, 0, 99)
      && Within(seconds, 0, 59)
      && Within(minutes, 0, 59)
      && Within(hour, 0, 23)
      && date.Valid()
    }

    /** Every counter holds a number. */
    predicate AllHold() {
      && hundredths.Some? && seconds.Some? && minutes.Some? && hour.Some?
      && date.day.Some? && date.month.Some? && date.year.Some? && date.weekday.Some?
    }
  }

  predicate Within(counter: Option<nat>, first: nat, last: nat) {
    counter.Some? ==> first <= counter.value <= last
  }

  /** The days of a month, or of what stands in the month counter. */
  function LastDay(month: Option<nat>, leap: nat): (days: nat)
    ensures 28 <= days <= 31
  {
    if month.None? then 31 else DaysInMonth(month.value, leap)
  }

  /** One count of a counter, if it holds a number. */
  function Up(counter: Option<nat>, first: nat, last: nat): Option<nat> {
    if counter.None? then None
    else if counter.value == last then Some(first)
    else Some(counter.value + 1)
  }

  // One count of each counter, with its carry

  function MonthUp(d: DateView): DateView {
    var e := d.(month := Up(d.month, 1, 12));
    if d.month == Some(12) then e.(year := Up(d.year, 0, 99), leap := CountUp(d.leap, 4)) else e
  }

  function DayUp(d: DateView): DateView {
    if d.day.None? then d
    else
      var last := LastDay(d.month, d.leap);
      var e := d.(day := Up(d.day, 1, last), weekday := Up(d.weekday, 1, 7));
      if d.day == Some(last) then MonthUp(e) else e
  }

  function HourUp(v: ClockView): ClockView {
    v.(hour := Up(v.hour, 0, 23), date := if v.hour == Some(23) then DayUp(v.date) else v.date)
  }

  function MinuteUp(v: ClockView): ClockView {
    var w := v.(minutes := Up(v.minutes, 0, 59));
    if v.minutes == Some(59) then HourUp(w) else w
  }

  function SecondUp(v: ClockView): ClockView {
    var w := v.(seconds := Up(v.seconds, 0, 59));
    if v.seconds == Some(59) then MinuteUp(w) else w
  }

  function HundredthUp(v: ClockView): ClockView {
    var w := v.(hundredths := Up(v.hundredths, 0, 99));
    if v.hundredths == Some(99) then SecondUp(w) else w
  }

  function NextView(v: ClockView): ClockView {
    if v.millisecond + 1 == 10 then HundredthUp(v.(millisecond := 0)) else v.(millisecond := v.millisecond + 1)
  }

  function ViewAfter(v: ClockView, milliseconds: nat): ClockView {
    if milliseconds == 0 then v else NextView(ViewAfter(v, milliseconds - 1))
  }

  function DaysOn(d: DateView, days: nat): DateView {
    if days == 0 then d else DayUp(DaysOn(d, days - 1))
  }

  // The days

  /** The days after which the day, the month and the years are back. */
  function DateTurn(d: DateView): nat {
    if d.month.None? then 31 else if d.year.None? then 1461 else 36525
  }

  /** Whether a date is back some days later. */
  predicate DateReturns(d: DateView, days: nat) {
    d.day.Some? ==> days % DateTurn(d) == 0 && (d.weekday.Some? ==> days % 7 == 0)
  }

  lemma CountReturns(value: nat, steps: nat, modulus: nat)
    requires value < modulus
    ensures CountOn(value, steps, modulus) == value <==> steps % modulus == 0
  {
    var rounds, rest := Split(steps, modulus);
    CountOnAdds(value, rounds * modulus, rest, modulus);
    WholeRounds(value, rounds, modulus);
    CountOnOnce(value, rest, modulus);
  }

  /** A date of a cycle of years, which starts in a given leap phase. */
  datatype CycleDay = CycleDay(day: nat, month: nat, year: nat) {
    predicate Valid(years: nat, start: nat) {
      && 1 <= month <= 12
      && year < years
      && 1 <= day <= DaysInMonth(month, CountOn(start, year, 4))
    }
  }

  function NextCycleDay(c: CycleDay, years: nat, start: nat): CycleDay {
    if c.day < DaysInMonth(c.month, CountOn(start, c.year, 4)) then c.(day := c.day + 1)
    else if c.month < 12 then CycleDay(1, c.month + 1, c.year)
    else CycleDay(1, 1, CountUp(c.year, years))
  }

  function CycleIndex(c: CycleDay, start: nat): nat
    requires 1 <= c.month && 1 <= c.day
  {
    YearsLength(start, c.year) + MonthOffset(c.month, CountOn(start, c.year, 4)) + c.day - 1
  }

  lemma {:induction false} MonthsGrow(a: nat, b: nat, leap: nat)
    requires 1 <= a < b
    ensures MonthOffset(a, leap) + DaysInMonth(a, leap) <= MonthOffset(b, leap)
    decreases b
  {
    hide DaysInMonth;
    if a + 1 < b {
      MonthsGrow(a, b - 1, leap);
    }
  }

  lemma {:induction false} YearsGrow(start: nat, a: nat, b: nat)
    requires a < b
    ensures YearsLength(start, a) + YearLength(CountOn(start, a, 4)) <= YearsLength(start, b)
    decreases b
  {
    if a + 1 < b {
      YearsGrow(start, a, b - 1);
    }
  }

  /** The days of a year come before the next year. */
  lemma IndexInYear(c: CycleDay, years: nat, start: nat)
    requires c.Valid(years, start)
    ensures MonthOffset(c.month, CountOn(start, c.year, 4)) + c.day <= YearLength(CountOn(start, c.year, 4))
  {
    var leap := CountOn(start, c.year, 4);
    MonthsMakeAYear(leap);
    if c.month < 12 {
      MonthsGrow(c.month, 12, leap);
    }
  }

  lemma IndexMoves(c: CycleDay, years: nat, start: nat)
    requires c.Valid(years, start)
    ensures NextCycleDay(c, years, start).Valid(years, start)
    ensures CycleIndex(NextCycleDay(c, years, start), start) == CountUp(CycleIndex(c, start), YearsLength(start, years))
  {
    var leap := CountOn(start, c.year, 4);
    IndexInYear(c, years, start);
    YearsGrow(start, c.year, years);
    MonthsMakeAYear(leap);
    hide YearLength;
    if c.day < DaysInMonth(c.month, leap) {
      IndexInYear(c.(day := c.day + 1), years, start);
    } else if c.month < 12 {
      IndexInYear(CycleDay(1, c.month + 1, c.year), years, start);
    } else if c.year + 1 < years {
      YearsGrow(start, c.year + 1, years);
      assert MonthOffset(1, CountOn(start, c.year + 1, 4)) == 0;
    } else {
      assert MonthOffset(1, CountOn(start, 0, 4)) == 0;
    }
  }

  lemma IndexOrder(c: CycleDay, d: CycleDay, years: nat, start: nat)
    requires c.Valid(years, start) && d.Valid(years, start)
    requires c.year < d.year || (c.year == d.year && c.month < d.month)
    ensures CycleIndex(c, start) < CycleIndex(d, start)
  {
    if c.year < d.year {
      IndexInYear(c, years, start);
      YearsGrow(start, c.year, d.year);
    } else {
      MonthsGrow(c.month, d.month, CountOn(start, c.year, 4));
    }
  }

  lemma IndexInjective(c: CycleDay, d: CycleDay, years: nat, start: nat)
    requires c.Valid(years, start) && d.Valid(years, start) && CycleIndex(c, start) == CycleIndex(d, start)
    ensures c == d
  {
    if c.year < d.year || (c.year == d.year && c.month < d.month) {
      IndexOrder(c, d, years, start);
    } else if d.year < c.year || (d.year == c.year && d.month < c.month) {
      IndexOrder(d, c, years, start);
    }
  }

  // A date as a day of a cycle

  function CycleYears(d: DateView): nat {
    if d.year.Some? then 100 else 4
  }

  /** The leap phase in which the cycle of a date starts. */
  function CycleStart(d: DateView): nat {
    if d.year.Some? then (d.leap + 3 * d.year.value) % 4 else 0
  }

  function CycleOf(d: DateView): CycleDay
    requires d.day.Some? && d.month.Some?
  {
    CycleDay(d.day.value, d.month.value, if d.year.Some? then d.year.value else d.leap)
  }

  lemma LeapOfYear(leap: nat, year: nat)
    requires leap < 4
    ensures CountOn((leap + 3 * year) % 4, year, 4) == leap
  {
    CountPhase((leap + 3 * year) % 4, year);
  }

  lemma {:induction false} CountPhase(leap: nat, years: nat)
    requires leap < 4
    ensures CountOn(leap, years, 4) == (leap + years) % 4
  {
    if years != 0 {
      CountPhase(leap, years - 1);
    }
  }

  /** The cycle of a date, at its leap phase. */
  lemma CycleLeap(d: DateView)
    requires d.Valid() && d.day.Some? && d.month.Some?
    ensures CountOn(CycleStart(d), CycleOf(d).year, 4) == d.leap
    ensures CycleStart(d) < 4
    ensures CycleOf(d).Valid(CycleYears(d), CycleStart(d))
    ensures YearsLength(CycleStart(d), CycleYears(d)) == DateTurn(d)
  {
    if d.year.Some? {
      LeapOfYear(d.leap, d.year.value);
      FourYearsRepeat(CycleStart(d), 25);
    } else {
      CountOnOnce(0, d.leap, 4);
      FourYears(0);
    }
  }

  /** The leap phase and the year move together. */
  lemma StartKept(d: DateView)
    requires d.Valid() && d.day.Some? && d.month.Some?
    ensures CycleStart(DayUp(d)) == CycleStart(d)
  {
    hide DaysInMonth, LastDay;
    if d.year.Some? {
      StartStays(d.leap, d.year.value);
    }
  }

  lemma CycleStep(d: DateView, start: nat)
    requires d.Valid() && d.day.Some? && d.month.Some? && CountOn(start, CycleOf(d).year, 4) == d.leap
    ensures DayUp(d).day.Some? && DayUp(d).month.Some?
    ensures CycleOf(DayUp(d)) == NextCycleDay(CycleOf(d), CycleYears(d), start)
  {
    var last := LastDay(d.month, d.leap);
    assert last == DaysInMonth(d.month.value, d.leap);
    hide DaysInMonth, LastDay, CountOn;
    if d.day.value < last {
    } else if d.month.value < 12 {
    } else {
    }
  }

  /** A day of the date is a day of its cycle. */
  lemma CycleMoves(d: DateView)
    requires d.Valid() && d.day.Some? && d.month.Some?
    ensures var e := DayUp(d);
            && e.Valid() && e.day.Some? && e.month.Some?
            && (e.year.Some? <==> d.year.Some?)
            && CycleStart(e) == CycleStart(d)
            && CycleOf(e) == NextCycleDay(CycleOf(d), CycleYears(d), CycleStart(d))
  {
    CycleLeap(d);
    StartKept(d);
    DayUpValid(d);
    YearKept(d);
    hide *;
    CycleStep(d, CycleStart(d));
  }

  lemma YearKept(d: DateView)
    ensures DayUp(d).year.Some? <==> d.year.Some?
  {
    hide LastDay;
  }

  lemma StartStays(leap: nat, year: nat)
    requires leap < 4 && year < 100
    ensures (CountUp(leap, 4) + 3 * CountUp(year, 100)) % 4 == (leap + 3 * year) % 4
  {
  }

  lemma {:induction false} CycleRuns(d: DateView, days: nat)
    requires d.Valid() && d.day.Some? && d.month.Some?
    ensures var e := DaysOn(d, days);
            && e.Valid() && e.day.Some? && e.month.Some?
            && (e.year.Some? <==> d.year.Some?)
            && CycleStart(e) == CycleStart(d)
            && CycleIndex(CycleOf(e), CycleStart(d))
               == CountOn(CycleIndex(CycleOf(d), CycleStart(d)), days, DateTurn(d))
  {
    if days != 0 {
      CycleRuns(d, days - 1);
      var e := DaysOn(d, days - 1);
      CycleMoves(e);
      CycleLeap(e);
      IndexMoves(CycleOf(e), CycleYears(e), CycleStart(e));
    }
  }

  lemma {:induction false} WeekdayCounts(d: DateView, days: nat)
    requires d.Valid() && d.day.Some?
    ensures var e := DaysOn(d, days);
            && e.Valid() && e.day.Some?
            && (e.month.Some? <==> d.month.Some?)
            && (d.weekday.None? ==> e.weekday.None?)
            && (d.weekday.Some? ==> e.weekday == Some(CountOn(d.weekday.value - 1, days, 7) + 1))
            && (d.month.None? ==> e == d.(day := Some(CountOn(d.day.value - 1, days, 31) + 1), weekday := e.weekday))
  {
    hide DaysInMonth;
    if days != 0 {
      WeekdayCounts(d, days - 1);
    }
  }

  lemma {:induction false} StuckDay(d: DateView, days: nat)
    requires d.day.None?
    ensures DaysOn(d, days) == d
  {
    if days != 0 {
      StuckDay(d, days - 1);
    }
  }

  /** The date without its weekday. */
  lemma CycleReturns(d: DateView, days: nat)
    requires d.Valid() && d.day.Some? && d.month.Some?
    ensures DaysOn(d, days) == d.(weekday := DaysOn(d, days).weekday) <==> days % DateTurn(d) == 0
  {
    var e := DaysOn(d, days);
    CycleRuns(d, days);
    CycleLeap(d);
    CycleLeap(e);
    var index := CycleIndex(CycleOf(d), CycleStart(d));
    IndexInYear(CycleOf(d), CycleYears(d), CycleStart(d));
    YearsGrow(CycleStart(d), CycleOf(d).year, CycleYears(d));
    CountReturns(index, days, DateTurn(d));
    if CycleIndex(CycleOf(e), CycleStart(d)) == index {
      IndexInjective(CycleOf(d), CycleOf(e), CycleYears(d), CycleStart(d));
    }
  }

  /** A date is back exactly after whole turns of whatever of it runs. */
  lemma DateReturnsExactly(d: DateView, days: nat)
    requires d.Valid()
    ensures DaysOn(d, days) == d <==> DateReturns(d, days)
  {
    if d.day.None? {
      StuckDay(d, days);
    } else {
      WeekdayCounts(d, days);
      if d.weekday.Some? {
        CountReturns(d.weekday.value - 1, days, 7);
      }
      if d.month.None? {
        CountReturns(d.day.value - 1, days, 31);
      } else {
        CycleReturns(d, days);
      }
    }
  }

  // The time

  /** How many of the counters from the hundredths up hold numbers without a gap. */
  function TimeLevel(v: ClockView): nat {
    if v.hundredths.None? then 0
    else if v.seconds.None? then 1
    else if v.minutes.None? then 2
    else if v.hour.None? then 3
    else 4
  }

  /** The milliseconds of a turn of these counters. */
  function Turn(level: nat): nat {
    if level == 0 then 10
    else if level == 1 then 1000
    else if level == 2 then 60_000
    else if level == 3 then 3_600_000
    else 86_400_000
  }

  /** The milliseconds into the present turn. */
  function Position(v: ClockView): nat {
    v.millisecond
    + (if v.hundredths.None? then 0
       else 10 * v.hundredths.value
            + (if v.seconds.None? then 0
               else 1000 * v.seconds.value
                    + (if v.minutes.None? then 0
                       else 60_000 * v.minutes.value
                            + if v.hour.None? then 0 else 3_600_000 * v.hour.value)))
  }

  /** Only the counters below the first gap differ, and the date. */
  predicate SameAbove(v: ClockView, w: ClockView) {
    && TimeLevel(w) == TimeLevel(v)
    && (TimeLevel(v) < 4 ==> w.hour == v.hour)
    && (TimeLevel(v) < 3 ==> w.minutes == v.minutes)
    && (TimeLevel(v) < 2 ==> w.seconds == v.seconds)
  }

  lemma PositionMoves(v: ClockView)
    requires v.Valid()
    ensures NextView(v).Valid() && SameAbove(v, NextView(v))
    ensures Position(NextView(v)) == CountUp(Position(v), Turn(TimeLevel(v)))
    ensures NextView(v).date == if TimeLevel(v) == 4 && Position(NextView(v)) == 0 then DayUp(v.date) else v.date
  {
    hide LastDay, DaysInMonth, DayUp;
    DayUpValid(v.date);
    if v.millisecond == 9 {
      if v.hundredths != Some(99) {
        hide SecondUp;
      } else if v.seconds != Some(59) {
        hide MinuteUp;
      } else if v.minutes != Some(59) {
        hide HourUp;
      }
    }
  }

  lemma DayUpValid(d: DateView)
    requires d.Valid()
    ensures DayUp(d).Valid()
  {
  }

  lemma SameDigits(a: nat, b: nat, c: nat, d: nat, e: nat, a': nat, b': nat, c': nat, d': nat, e': nat)
    requires a < 10 && b < 100 && c < 60 && d < 60 && a' < 10 && b' < 100 && c' < 60 && d' < 60
    requires a + 10 * b + 1000 * c + 60_000 * d + 3_600_000 * e == a' + 10 * b' + 1000 * c' + 60_000 * d' + 3_600_000 * e'
    ensures a == a' && b == b' && c == c' && d == d' && e == e'
  {
    assert a + 10 * b < 1000 && a + 10 * b + 1000 * c < 60_000 && a + 10 * b + 1000 * c + 60_000 * d < 3_600_000;
    assert e == e';
    assert d == d';
    assert c == c';
  }

  function Digit(counter: Option<nat>): nat {
    if counter.Some? then counter.value else 0
  }

  lemma PositionInjective(v: ClockView, w: ClockView)
    requires v.Valid() && w.Valid() && SameAbove(v, w)
    ensures Position(v) < Turn(TimeLevel(v))
    ensures Position(v) == Position(w) && v.date == w.date ==> v == w
  {
    hide LastDay, DaysInMonth;
    if Position(v) == Position(w) {
      var level := TimeLevel(v);
      SameDigits(v.millisecond,
                 if level < 1 then 0 else Digit(v.hundredths), if level < 2 then 0 else Digit(v.seconds),
                 if level < 3 then 0 else Digit(v.minutes), if level < 4 then 0 else Digit(v.hour),
                 w.millisecond,
                 if level < 1 then 0 else Digit(w.hundredths), if level < 2 then 0 else Digit(w.seconds),
                 if level < 3 then 0 else Digit(w.minutes), if level < 4 then 0 else Digit(w.hour));
    }
  }

  lemma {:induction false} ViewRuns(v: ClockView, milliseconds: nat) returns (rounds: nat)
    requires v.Valid()
    ensures var w := ViewAfter(v, milliseconds);
            && w.Valid() && SameAbove(v, w)
            && Position(v) + milliseconds == rounds * Turn(TimeLevel(v)) + Position(w)
            && w.date == if TimeLevel(v) == 4 then DaysOn(v.date, rounds) else v.date
  {
    var turn := Turn(TimeLevel(v));
    hide Turn, DayUp, LastDay, Position;
    if milliseconds == 0 {
      rounds := 0;
    } else {
      var before := ViewRuns(v, milliseconds - 1);
      var u := ViewAfter(v, milliseconds - 1);
      hide NextView;
      PositionMoves(u);
      rounds := if Position(NextView(u)) == 0 then before + 1 else before;
      assert (before + 1) * turn == before * turn + turn;
    }
  }

  /** Whether the counters are back some milliseconds later. */
  predicate TimeReturns(v: ClockView, milliseconds: nat) {
    && milliseconds % Turn(TimeLevel(v)) == 0
    && (TimeLevel(v) == 4 ==> DateReturns(v.date, milliseconds / Turn(4)))
  }

  /** The counters are back exactly after whole turns, which whole turns of the days must be. */
  lemma ViewReturns(v: ClockView, milliseconds: nat)
    requires v.Valid()
    ensures ViewAfter(v, milliseconds) == v <==> TimeReturns(v, milliseconds)
  {
    var rounds := ViewRuns(v, milliseconds);
    var w := ViewAfter(v, milliseconds);
    var turn := Turn(TimeLevel(v));
    PositionInjective(v, w);
    PositionInjective(w, v);
    DateReturnsExactly(v.date, rounds);
    hide Turn, DateReturns, Position, DaysOn, ViewAfter;
    if w == v {
      UniqueRemainder(milliseconds, rounds, 0, turn);
    }
    if milliseconds % turn == 0 {
      var q, r := Split(milliseconds, turn);
      UniqueRemainder(Position(v) + milliseconds, q, Position(v), turn);
      UniqueRemainder(Position(v) + milliseconds, rounds, Position(w), turn);
      UniqueRemainder(milliseconds, q, 0, turn);
    }
  }
}
