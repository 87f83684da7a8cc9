/**
 The register-level stepper moves the decoded clock.  `Shows` says what time the
 counters hold, `SameRest` that nothing but counter bits differs; together they
 determine the whole state.
 */
module RtcMotion {
  import opened Options
  import opened Bcd
  import opened Calendar
  import opened ClockTime
  import opened RtcState

  // What the counters show

  predicate ShowsTime(s: Rtc, clock: ClockState) {
    && clock.Valid()
    && Holds(s.registers[HUNDREDTHS], 0xff, clock.hundredths)
    && Holds(s.registers[SECONDS], 0x7f, clock.seconds)
    && Holds(s.registers[MINUTES], 0x7f, clock.minutes)
    && HoldsHour(s.registers[HOURS], Mode12(s), clock.hour)
  }

  predicate ShowsDate(s: Rtc, date: CalendarDate) {
    && date.Valid()
    && Holds(s.registers[DAY_OF_MONTH], 0x3f, date.dayOfMonth)
    && Holds(s.registers[MONTH], 0x1f, date.month)
    && Holds(s.registers[YEAR], 0xff, date.year)
    && Holds(s.registers[DAY_OF_WEEK], 0x07, date.dayOfWeek)
    && LeapPhase(s) == date.leapYear
  }

  predicate Shows(s: Rtc, clock: ClockState) {
    ShowsTime(s, clock) && ShowsDate(s, clock.date)
  }

  lemma DecodesIffShowsDate(s: Rtc, date: CalendarDate)
    requires date.Valid()
    ensures DecodeDate(s) == Some(date) <==> ShowsDate(s, date)
  {
    hide DecodeField, Holds, LeapPhase;
    FieldRoundTrip(s.registers[DAY_OF_MONTH], 0x3f, 1, DaysInMonth(date.month, date.leapYear), date.dayOfMonth);
    FieldRoundTrip(s.registers[MONTH], 0x1f, 1, 12, date.month);
    FieldRoundTrip(s.registers[YEAR], 0xff, 0, 99, date.year);
    FieldRoundTrip(s.registers[DAY_OF_WEEK], 0x07, 1, 7, date.dayOfWeek);
  }

  /** The counters decode to a clock exactly when they show it. */
  lemma DecodesIffShows(s: Rtc, clock: ClockState)
    requires clock.Valid()
    ensures DecodeClock(s) == Some(clock) <==> Shows(s, clock)
  {
    hide DecodeField, DecodeHour, DecodeDate, HoldsHour, ShowsDate, Holds, LeapPhase, Mode12;
    FieldRoundTrip(s.registers[HUNDREDTHS], 0xff, 0, 99, clock.hundredths);
    FieldRoundTrip(s.registers[SECONDS], 0x7f, 0, 59, clock.seconds);
    FieldRoundTrip(s.registers[MINUTES], 0x7f, 0, 59, clock.minutes);
    HourRoundTrip(s.registers[HOURS], Mode12(s), clock.hour);
    DecodesIffShowsDate(s, clock.date);
  }

  // What else there is

  predicate IsCounter(register: nat) {
    HUNDREDTHS <= register <= YEAR || register == DAY_OF_WEEK
  }

  /** The bits of a register that belong to the running clock. */
  function ClockBits(register: nat, mode12: bool): bv8 {
    if IsCounter(register) then CounterMask(register, mode12) else 0
  }

  predicate SameControl(s: Rtc, t: Rtc) {
    && s.alternate[REAL_TIME_MODE] & 0xfc == t.alternate[REAL_TIME_MODE] & 0xfc
    && s.alternate[OUTPUT_MODE] == t.alternate[OUTPUT_MODE]
    && s.alternate[INTERRUPT_CONTROL_0] == t.alternate[INTERRUPT_CONTROL_0]
    && s.alternate[INTERRUPT_CONTROL_1] == t.alternate[INTERRUPT_CONTROL_1]
  }

  /** Two states that differ in counter bits and the leap phase at most. */
  ghost predicate SameRest(s: Rtc, t: Rtc) {
    && (forall r: nat :: r < 32 ==> AgreeOutside(s.registers[r], t.registers[r], ClockBits(r, Mode12(s))))
    && SameControl(s, t)
    && t == s.(registers := t.registers, alternate := t.alternate)
  }

  lemma SameModes(s: Rtc, t: Rtc)
    requires SameControl(s, t)
    ensures Mode12(s) == Mode12(t) && Running(s) == Running(t)
  {
    ModeBits(s.alternate[REAL_TIME_MODE], t.alternate[REAL_TIME_MODE]);
  }

  lemma ModeBits(a: bv8, b: bv8)
    requires a & 0xfc == b & 0xfc
    ensures a & 0x08 == b & 0x08 && a & 0x04 == b & 0x04
  {
    assert a & 0x08 == (a & 0xfc) & 0x08 && b & 0x08 == (b & 0xfc) & 0x08;
    assert a & 0x04 == (a & 0xfc) & 0x04 && b & 0x04 == (b & 0xfc) & 0x04;
  }

  lemma SameRestChains(s: Rtc, t: Rtc, u: Rtc)
    requires SameRest(s, t) && SameRest(t, u)
    ensures SameRest(s, u) && Mode12(s) == Mode12(u)
  {
    hide ClockBits, Mode12;
    SameModes(s, t);
    SameModes(t, u);
  }

  /** Writing a counter field changes that field only. */
  lemma FieldWriteKeepsRest(s: Rtc, register: nat, value: bv8)
    requires IsCounter(register)
    requires AgreeOutside(s.registers[register], value, ClockBits(register, Mode12(s)))
    ensures SameRest(s, Put(s, register, value))
    ensures Mode12(Put(s, register, value)) == Mode12(s)
  {
    hide ClockBits;
  }

  /** An increment of a field that holds a value within its limits. */
  lemma IncrementMoves(s: Rtc, register: nat, mask: bv8, minimum: nat, maximum: nat, value: nat, next: nat)
    returns (t: Rtc)
    requires IsCounter(register) && mask == ClockBits(register, Mode12(s))
    requires minimum <= value <= maximum < 100 && FieldFits(mask, maximum + 1)
    requires Holds(s.registers[register], mask, value)
    requires next == if value == maximum then minimum else value + 1
    ensures IncrementBcd(s, register, mask, minimum, maximum) == Incremented(t, next, value == maximum)
    ensures t == Put(s, register, t.registers[register])
    ensures Holds(t.registers[register], mask, next)
    ensures SameRest(s, t) && Mode12(t) == Mode12(s) && LeapPhase(t) == LeapPhase(s)
  {
    hide *;
    CounterExists(register);
    var raw := s.registers[register];
    var written := WithField(raw, mask, next);
    FieldRoundTrip(raw, mask, minimum, maximum, value);
    FitsSmaller(mask, next + 1, maximum + 1);
    WriteField(raw, mask, next);
    AgreeSymmetric(written, raw, mask);
    FieldWriteKeepsRest(s, register, written);
    t := Put(s, register, written);
    IncrementIs(s, register, mask, minimum, maximum, value, next);
    WrittenBits(s, register, written);
  }

  lemma CounterExists(register: nat)
    requires IsCounter(register)
    ensures register < 32
  {
  }

  lemma FitsSmaller(mask: bv8, small: nat, large: nat)
    requires FieldFits(mask, large) && small <= large
    ensures FieldFits(mask, small)
  {
  }

  lemma AgreeSymmetric(a: bv8, b: bv8, mask: bv8)
    requires AgreeOutside(a, b, mask)
    ensures AgreeOutside(b, a, mask)
  {
  }

  lemma IncrementIs(s: Rtc, register: nat, mask: bv8, minimum: nat, maximum: nat, value: nat, next: nat)
    requires register < 32 && minimum <= value <= maximum < 100
    requires next == if value == maximum then minimum else value + 1
    requires DecodeField(s.registers[register], mask, minimum, maximum) == Some(value)
    ensures IncrementBcd(s, register, mask, minimum, maximum)
         == Incremented(Put(s, register, WithField(s.registers[register], mask, next)), next, value == maximum)
  {
    hide DecodeField, WithField, Put;
  }

  lemma WrittenBits(s: Rtc, register: nat, value: bv8)
    requires register < 32
    ensures Put(s, register, value).registers[register] == value
    ensures LeapPhase(Put(s, register, value)) == LeapPhase(s)
  {
  }

  // Days

  predicate SameTimeCounters(s: Rtc, t: Rtc) {
    && s.registers[HUNDREDTHS] == t.registers[HUNDREDTHS]
    && s.registers[SECONDS] == t.registers[SECONDS]
    && s.registers[MINUTES] == t.registers[MINUTES]
    && s.registers[HOURS] == t.registers[HOURS]
  }

  lemma MonthLength(s: Rtc, date: CalendarDate)
    requires ShowsDate(s, date)
    ensures DaysInCurrentMonth(s) == DaysInMonth(date.month, date.leapYear)
  {
    hide DecodeBcd, EncodeBcd;
    DecodeIffEncode(s.registers[MONTH] & 0x1f, date.month);
    LeapBits(s.alternate[REAL_TIME_MODE]);
  }

  lemma LeapBits(mode: bv8)
    ensures mode & 0x03 == 0 <==> (mode & 0x03) as nat == 0
  {
  }

  lemma NextLeapBits(mode: bv8)
    ensures var next := (mode & !0x03) | (((mode & 0x03) + 1) & 0x03);
            && next & 0xfc == mode & 0xfc
            && (next & 0x03) as nat == CountUp((mode & 0x03) as nat, 4)
  {
    var next := (mode & !0x03) | (((mode & 0x03) + 1) & 0x03);
    assert next & 0x03 == ((mode & 0x03) + 1) & 0x03;
    assert next & 0x03 == if mode & 0x03 == 3 then 0 else (mode & 0x03) + 1;
  }

  lemma NextLeapPhaseMoves(s: Rtc)
    ensures LeapPhase(NextLeapPhase(s)) == CountUp(LeapPhase(s), 4)
    ensures SameRest(s, NextLeapPhase(s)) && NextLeapPhase(s).registers == s.registers
  {
    hide ClockBits;
    NextLeapBits(s.alternate[REAL_TIME_MODE]);
  }

  lemma AdvanceMonthMoves(s: Rtc, date: CalendarDate)
    requires date.month <= 12 && date.year < 100 && 1 <= date.month
    requires Holds(s.registers[MONTH], 0x1f, date.month)
    requires Holds(s.registers[YEAR], 0xff, date.year)
    requires LeapPhase(s) == date.leapYear
    ensures var t := AdvanceMonth(s);
            && Holds(t.registers[MONTH], 0x1f, if date.month < 12 then date.month + 1 else 1)
            && Holds(t.registers[YEAR], 0xff, if date.month < 12 then date.year else CountUp(date.year, 100))
            && LeapPhase(t) == (if date.month < 12 then date.leapYear else CountUp(date.leapYear, 4))
            && t.registers[DAY_OF_MONTH] == s.registers[DAY_OF_MONTH]
            && t.registers[DAY_OF_WEEK] == s.registers[DAY_OF_WEEK]
            && SameTimeCounters(s, t)
            && SameRest(s, t)
  {
    hide Holds, LeapPhase, IncrementBcd, Mode12, SameRest, NextLeapPhase;
    var s1 := IncrementMoves(s, MONTH, 0x1f, 1, 12, date.month, if date.month < 12 then date.month + 1 else 1);
    if date.month == 12 {
      var s2 := IncrementMoves(s1, YEAR, 0xff, 0, 99, date.year, CountUp(date.year, 100));
      NextLeapPhaseMoves(s2);
      SameRestChains(s, s1, s2);
      SameRestChains(s, s2, NextLeapPhase(s2));
    }
  }

  /** The register-level day is the calendar's day. */
  lemma AdvanceDayMoves(s: Rtc, date: CalendarDate)
    requires ShowsDate(s, date)
    ensures ShowsDate(AdvanceDay(s), NextDay(date))
    ensures SameRest(s, AdvanceDay(s)) && SameTimeCounters(s, AdvanceDay(s))
  {
    hide Holds, LeapPhase, IncrementBcd, Mode12, SameRest, AdvanceMonth, DaysInCurrentMonth, DaysInMonth;
    MonthLength(s, date);
    var length := DaysInMonth(date.month, date.leapYear);
    var last := date.dayOfMonth == length;
    var s1 := IncrementMoves(s, DAY_OF_MONTH, 0x3f, 1, length, date.dayOfMonth,
                             if last then 1 else date.dayOfMonth + 1);
    var s2 := IncrementMoves(s1, DAY_OF_WEEK, 0x07, 1, 7, date.dayOfWeek, NextWeekday(date.dayOfWeek));
    SameRestChains(s, s1, s2);
    if last {
      AdvanceMonthMoves(s2, date);
      SameRestChains(s, s2, AdvanceMonth(s2));
    }
  }

  // Hours, minutes and seconds

  /** Only the hour of the time counters may differ. */
  predicate SameShortCounters(s: Rtc, t: Rtc) {
    && s.registers[HUNDREDTHS] == t.registers[HUNDREDTHS]
    && s.registers[SECONDS] == t.registers[SECONDS]
    && s.registers[MINUTES] == t.registers[MINUTES]
  }

  lemma PutKeepsDate(s: Rtc, register: nat, value: bv8, date: CalendarDate)
    requires ShowsDate(s, date) && HUNDREDTHS <= register <= HOURS
    ensures ShowsDate(Put(s, register, value), date)
  {
    hide Holds;
    WrittenBits(s, register, value);
  }

  function NextHour(clock: ClockState): ClockState {
    if clock.hour < 23 then clock.(hour := clock.hour + 1)
    else clock.(hour := 0, date := NextDay(clock.date))
  }

  /** The clock after the hour counter alone has moved. */
  ghost predicate HourMoved(s: Rtc, t: Rtc, clock: ClockState)
    requires clock.Valid()
  {
    && HoldsHour(t.registers[HOURS], Mode12(s), NextHour(clock).hour)
    && ShowsDate(t, NextHour(clock).date)
    && SameShortCounters(s, t)
    && SameRest(s, t)
  }

  lemma CarryIntoDay(s: Rtc, s1: Rtc, clock: ClockState)
    requires clock.Valid() && ShowsDate(s, clock.date)
    requires s1 == Put(s, HOURS, s1.registers[HOURS]) && SameRest(s, s1)
    requires HoldsHour(s1.registers[HOURS], Mode12(s), NextHour(clock).hour)
    ensures HourMoved(s, if clock.hour == 23 then AdvanceDay(s1) else s1, clock)
  {
    hide Holds, HoldsHour, LeapPhase, Mode12, SameRest, AdvanceDay, ShowsDate;
    PutKeepsDate(s, HOURS, s1.registers[HOURS], clock.date);
    if clock.hour == 23 {
      AdvanceDayMoves(s1, clock.date);
      SameRestChains(s, s1, AdvanceDay(s1));
    }
  }

  lemma AdvanceHourMoves24(s: Rtc, clock: ClockState)
    requires clock.Valid() && ShowsDate(s, clock.date)
    requires HoldsHour(s.registers[HOURS], Mode12(s), clock.hour) && !Mode12(s)
    ensures HourMoved(s, AdvanceHour(s), clock)
  {
    assert ClockBits(HOURS, false) == 0x3f;
    forall raw: bv8, hour: nat | hour < 24
      ensures HoldsHour(raw, false, hour) <==> Holds(raw, 0x3f, hour)
    {
    }
    hide Holds, HoldsHour, LeapPhase, Mode12, SameRest, AdvanceDay, ShowsDate, IncrementBcd, ClockBits, HourMoved;
    var s1 := IncrementMoves(s, HOURS, 0x3f, 0, 23, clock.hour, NextHour(clock).hour);
    CarryIntoDay(s, s1, clock);
  }

  lemma Advance12Writes(s: Rtc, hour: nat, next: nat)
    requires hour < 24 && next == (if hour == 23 then 0 else hour + 1)
    requires DecodeField(s.registers[HOURS], 0x1f, 1, 12) == Some(HourDigits(hour))
    requires s.registers[HOURS] & 0x80 != 0 <==> hour >= 12
    ensures var s1 := Put(s, HOURS, WithHour12(s.registers[HOURS], HourDigits(next), next >= 12));
            Advance12HourCounter(s) == if hour == 23 then AdvanceDay(s1) else s1
  {
    hide DecodeField, WithHour12, AdvanceDay, Put;
  }

  lemma AdvanceHourMoves12(s: Rtc, clock: ClockState)
    requires clock.Valid() && ShowsDate(s, clock.date)
    requires HoldsHour(s.registers[HOURS], Mode12(s), clock.hour) && Mode12(s)
    ensures HourMoved(s, Advance12HourCounter(s), clock)
  {
    var raw := s.registers[HOURS];
    var hour := NextHour(clock).hour;
    var written := WithHour12(raw, HourDigits(hour), hour >= 12);
    assert ClockBits(HOURS, true) == 0x9f && IsCounter(HOURS);
    hide *;
    HourParts(raw, clock.hour);
    WriteHour12(raw, hour);
    FieldWriteKeepsRest(s, HOURS, written);
    NextHourNumber(clock);
    Advance12Writes(s, clock.hour, hour);
    WrittenBits(s, HOURS, written);
    CarryIntoDay(s, Put(s, HOURS, written), clock);
  }

  lemma NextHourNumber(clock: ClockState)
    requires clock.Valid()
    ensures clock.hour < 24 && NextHour(clock).hour == if clock.hour == 23 then 0 else clock.hour + 1
  {
  }

  lemma AdvanceHourMoves(s: Rtc, clock: ClockState)
    requires clock.Valid() && ShowsDate(s, clock.date)
    requires HoldsHour(s.registers[HOURS], Mode12(s), clock.hour)
    ensures HourMoved(s, AdvanceHour(s), clock)
  {
    if Mode12(s) {
      AdvanceHourMoves12(s, clock);
    } else {
      AdvanceHourMoves24(s, clock);
    }
  }

  lemma PutKeepsTime(s: Rtc, register: nat, value: bv8)
    requires register == SECONDS || register == MINUTES || register == HUNDREDTHS
    ensures var t := Put(s, register, value);
            && t.registers[register] == value
            && (register != HUNDREDTHS ==> t.registers[HUNDREDTHS] == s.registers[HUNDREDTHS])
            && (register != SECONDS ==> t.registers[SECONDS] == s.registers[SECONDS])
            && (register != MINUTES ==> t.registers[MINUTES] == s.registers[MINUTES])
            && t.registers[HOURS] == s.registers[HOURS]
  {
  }

  function NextMinute(clock: ClockState): ClockState {
    if clock.minutes < 59 then clock.(minutes := clock.minutes + 1)
    else NextHour(clock).(minutes := 0)
  }

  lemma AdvanceMinuteMoves(s: Rtc, clock: ClockState)
    requires Shows(s, clock)
    ensures Shows(AdvanceMinute(s), NextMinute(clock)) && SameRest(s, AdvanceMinute(s))
  {
    hide Holds, HoldsHour, LeapPhase, Mode12, SameRest, AdvanceHour, ShowsDate, IncrementBcd, NextDay;
    var s1 := IncrementMoves(s, MINUTES, 0x7f, 0, 59, clock.minutes, if clock.minutes == 59 then 0 else clock.minutes + 1);
    PutKeepsTime(s, MINUTES, s1.registers[MINUTES]);
    PutKeepsDate(s, MINUTES, s1.registers[MINUTES], clock.date);
    if clock.minutes == 59 {
      AdvanceHourMoves(s1, clock);
      SameRestChains(s, s1, AdvanceHour(s1));
    }
  }

  /** The counters of one second, before the time-save copy and the alarm look at them. */
  function TickCounters(s: Rtc): Rtc {
    var second := IncrementBcd(s, SECONDS, 0x7f, 0, 59);
    if second.Invalid? then s
    else if second.wrapped then AdvanceMinute(second.state)
    else second.state
  }

  /** The events raised by the second that a clock shows. */
  function TickEvents(clock: ClockState): bv8 {
    PERIODIC_SECOND
    | (if clock.seconds % 10 == 0 then PERIODIC_TEN_SECONDS else 0)
    | (if clock.seconds == 0 then PERIODIC_MINUTE else 0)
  }

  lemma TickIsNextSecond(clock: ClockState)
    requires clock.Valid()
    ensures NextSecond(clock)
         == if clock.seconds == 59 then NextMinute(clock).(seconds := 0) else clock.(seconds := clock.seconds + 1)
  {
  }

  /** The register-level second is the clock's second. */
  lemma TickCountersMoves(s: Rtc, clock: ClockState)
    requires Shows(s, clock)
    ensures Shows(TickCounters(s), NextSecond(clock)) && SameRest(s, TickCounters(s))
    ensures AdvanceSecond(s)
         == (FinishClockChange(TickCounters(s)), TickEvents(NextSecond(clock)))
  {
    hide Holds, HoldsHour, LeapPhase, Mode12, SameRest, AdvanceMinute, ShowsDate, IncrementBcd, NextMinute, NextSecond,
      FinishClockChange;
    TickIsNextSecond(clock);
    var next := if clock.seconds == 59 then 0 else clock.seconds + 1;
    var s1 := IncrementMoves(s, SECONDS, 0x7f, 0, 59, clock.seconds, next);
    PutKeepsTime(s, SECONDS, s1.registers[SECONDS]);
    PutKeepsDate(s, SECONDS, s1.registers[SECONDS], clock.date);
    if clock.seconds == 59 {
      var c1 := clock.(seconds := 0);
      assert Shows(s1, c1);
      AdvanceMinuteMoves(s1, c1);
      SameRestChains(s, s1, AdvanceMinute(s1));
      NextMinuteKeepsSeconds(clock);
    }
  }

  lemma NextMinuteKeepsSeconds(clock: ClockState)
    requires clock.Valid()
    ensures NextMinute(clock.(seconds := 0)) == NextMinute(clock).(seconds := 0)
  {
  }
}
