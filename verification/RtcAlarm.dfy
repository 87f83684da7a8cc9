/**
 The analytic alarm predictor of the bulk path.  It looks at whole days instead
 of seconds, skips the time an alarm stays on, and stops after one calendar
 cycle; `AlarmEdgeDuring` answers exactly whether stepping would see an edge.
 */
module RtcAlarm {
  import opened Options
  import opened Bcd
  import opened Calendar
  import opened ClockTime
  import opened RtcState
  import opened RtcReach

  predicate AlarmDateMatches(s: Rtc, date: CalendarDate)
    requires date.Valid()
  {
    && AlarmByteMatches(s, 3, EncodeBcd(date.dayOfMonth))
    && AlarmByteMatches(s, 4, EncodeBcd(date.month))
    && AlarmByteMatches(s, 5, EncodeBcd(date.dayOfWeek))
  }

  predicate AlarmTimeMatches(s: Rtc, secondsOfDay: nat)
    requires secondsOfDay < SECONDS_PER_DAY
  {
    var hour := secondsOfDay / 3600;
    var minute := secondsOfDay / 60 % 60;
    var second := secondsOfDay % 60;
    && AlarmByteMatches(s, 0, EncodeBcd(second))
    && AlarmByteMatches(s, 1, EncodeBcd(minute))
    && AlarmByteMatches(s, 2, EncodeHour(hour, Mode12(s)))
  }

  predicate AlarmTimeFieldsValid(s: Rtc) {
    && (FieldSelected(s, 0) ==> DecodeField(s.registers[SECONDS_COMPARE], 0x7f, 0, 59).Some?)
    && (FieldSelected(s, 1) ==> DecodeField(s.registers[SECONDS_COMPARE + 1], 0x7f, 0, 59).Some?)
    && (FieldSelected(s, 2) ==> DecodeHour(s.registers[SECONDS_COMPARE + 2], Mode12(s)).Some?)
  }

  // Seconds of the day

  lemma DayParts(hour: nat, minute: nat, second: nat)
    requires hour < 24 && minute < 60 && second < 60
    ensures var total := hour * 3600 + minute * 60 + second;
            total < SECONDS_PER_DAY && total / 3600 == hour && total / 60 % 60 == minute && total % 60 == second
  {
    var total := hour * 3600 + minute * 60 + second;
    assert total / 60 == hour * 60 + minute;
  }

  /** The alarm of a time is that of its date and of its second of the day. */
  lemma AlarmSplits(s: Rtc, clock: ClockState)
    requires clock.Valid()
    ensures clock.SecondsOfDay() < SECONDS_PER_DAY
    ensures AlarmMatchesAt(s, clock)
        <==> AlarmEnables(s) != 0 && AlarmDateMatches(s, clock.date) && AlarmTimeMatches(s, clock.SecondsOfDay())
  {
    hide AlarmByteMatches, AlarmEnables, EncodeBcd, EncodeHour, Mode12;
    DayParts(clock.hour, clock.minutes, clock.seconds);
    assert (forall bit: nat :: bit < 6 ==> AlarmBitMatches(s, clock, bit))
      <==> AlarmBitMatches(s, clock, 0) && AlarmBitMatches(s, clock, 1) && AlarmBitMatches(s, clock, 2)
           && AlarmBitMatches(s, clock, 3) && AlarmBitMatches(s, clock, 4) && AlarmBitMatches(s, clock, 5);
  }

  /** The alarm some seconds on, by days and seconds of the day. */
  lemma AlarmAfterIs(s: Rtc, clock: ClockState, seconds: nat, day: nat, rest: nat)
    requires clock.Valid() && rest < SECONDS_PER_DAY
    requires clock.SecondsOfDay() + seconds == day * SECONDS_PER_DAY + rest
    ensures AlarmAfter(s, clock, seconds)
        <==> AlarmEnables(s) != 0 && AlarmDateMatches(s, DaysLater(clock.date, day)) && AlarmTimeMatches(s, rest)
  {
    hide AlarmDateMatches, AlarmTimeMatches, AlarmEnables, AlarmMatchesAt;
    SecondsLaterLands(clock, seconds, day, rest);
    AlarmSplits(s, SecondsLater(clock, seconds));
  }

  // A time of day that matches

  ghost predicate SomeTimeMatches(s: Rtc, lower: nat, upper: nat)
    requires upper < SECONDS_PER_DAY
  {
    exists rest: nat :: lower <= rest <= upper && AlarmTimeMatches(s, rest)
  }

  /** A compare byte selects a BCD field value exactly when it holds one within the limits. */
  lemma CompareField(s: Rtc, bit: nat, mask: bv8, maximum: nat, value: nat)
    requires bit < 6 && value <= maximum < 100 && FieldSelected(s, bit) && AlarmMask(s, bit) == mask
    requires FieldFits(mask, maximum + 1)
    ensures AlarmByteMatches(s, bit, EncodeBcd(value))
        <==> DecodeField(s.registers[SECONDS_COMPARE + bit], mask, 0, maximum) == Some(value)
  {
    hide DecodeField, FieldSelected, AlarmMask, EncodeBcd, Holds, SameUnder;
    var compare := s.registers[SECONDS_COMPARE + bit];
    FieldRoundTrip(compare, mask, 0, maximum, value);
    EncodedMatch(compare, mask, value);
  }

  lemma EncodedMatch(raw: bv8, mask: bv8, value: nat)
    requires value < 100 && FieldFits(mask, value + 1)
    ensures SameUnder(EncodeBcd(value), raw, mask) <==> Holds(raw, mask, value)
  {
    EncodeFits(value, mask);
    hide EncodeBcd, FieldFits;
  }

  lemma CompareHour(s: Rtc, hour: nat)
    requires hour < 24 && FieldSelected(s, 2)
    ensures AlarmByteMatches(s, 2, EncodeHour(hour, Mode12(s)))
        <==> DecodeHour(s.registers[SECONDS_COMPARE + 2], Mode12(s)) == Some(hour)
  {
    hide DecodeHour, FieldSelected, Mode12;
    EncodeHourFits(hour, Mode12(s));
    HourRoundTrip(s.registers[SECONDS_COMPARE + 2], Mode12(s), hour);
    hide EncodeHour;
  }

  lemma TimeFields(s: Rtc, hour: nat, minute: nat, second: nat)
    requires hour < 24 && minute < 60 && second < 60
    ensures AlarmByteMatches(s, 0, EncodeBcd(second)) && FieldSelected(s, 0) ==>
              DecodeField(s.registers[SECONDS_COMPARE], 0x7f, 0, 59).Some?
    ensures AlarmByteMatches(s, 1, EncodeBcd(minute)) && FieldSelected(s, 1) ==>
              DecodeField(s.registers[SECONDS_COMPARE + 1], 0x7f, 0, 59).Some?
    ensures AlarmByteMatches(s, 2, EncodeHour(hour, Mode12(s))) && FieldSelected(s, 2) ==>
              DecodeHour(s.registers[SECONDS_COMPARE + 2], Mode12(s)).Some?
  {
    hide DecodeField, DecodeHour, AlarmByteMatches, EncodeBcd, EncodeHour, FieldSelected, Mode12;
    if FieldSelected(s, 0) { CompareField(s, 0, 0x7f, 59, second); }
    if FieldSelected(s, 1) { CompareField(s, 1, 0x7f, 59, minute); }
    if FieldSelected(s, 2) { CompareHour(s, hour); }
  }

  lemma MatchingTimeIsValid(s: Rtc, rest: nat)
    requires rest < SECONDS_PER_DAY && AlarmTimeMatches(s, rest)
    ensures AlarmTimeFieldsValid(s)
  {
    hide DecodeField, DecodeHour, AlarmByteMatches, EncodeBcd, EncodeHour, FieldSelected, Mode12;
    assert rest / 3600 < 24;
    TimeFields(s, rest / 3600, rest / 60 % 60, rest % 60);
  }

  /** The time of day a valid alarm asks for. */
  lemma AskedTime(s: Rtc) returns (hour: nat, minute: nat, second: nat)
    requires AlarmTimeFieldsValid(s)
    ensures hour < 24 && minute < 60 && second < 60
    ensures AlarmByteMatches(s, 0, EncodeBcd(second))
    ensures AlarmByteMatches(s, 1, EncodeBcd(minute))
    ensures AlarmByteMatches(s, 2, EncodeHour(hour, Mode12(s)))
  {
    hide DecodeHour, EncodeBcd, EncodeHour, FieldSelected, Mode12;
    hour, minute, second := 0, 0, 0;
    if FieldSelected(s, 0) {
      second := DecodeField(s.registers[SECONDS_COMPARE], 0x7f, 0, 59).value;
      CompareField(s, 0, 0x7f, 59, second);
    }
    if FieldSelected(s, 1) {
      minute := DecodeField(s.registers[SECONDS_COMPARE + 1], 0x7f, 0, 59).value;
      CompareField(s, 1, 0x7f, 59, minute);
    }
    if FieldSelected(s, 2) {
      hour := DecodeHour(s.registers[SECONDS_COMPARE + 2], Mode12(s)).value;
      DecodeHourBound(s.registers[SECONDS_COMPARE + 2], Mode12(s));
      CompareHour(s, hour);
    }
  }

  /** The whole-day shortcut: some second of a day matches exactly when the compare fields are valid. */
  lemma WholeDay(s: Rtc)
    ensures SomeTimeMatches(s, 0, SECONDS_PER_DAY - 1) <==> AlarmTimeFieldsValid(s)
  {
    hide AlarmTimeFieldsValid, AlarmByteMatches, EncodeBcd, EncodeHour, Mode12;
    if SomeTimeMatches(s, 0, SECONDS_PER_DAY - 1) {
      var rest: nat :| rest <= SECONDS_PER_DAY - 1 && AlarmTimeMatches(s, rest);
      MatchingTimeIsValid(s, rest);
    }
    if AlarmTimeFieldsValid(s) {
      var hour, minute, second := AskedTime(s);
      DayParts(hour, minute, second);
      assert AlarmTimeMatches(s, hour * 3600 + minute * 60 + second);
    }
  }

  method AlarmTimeMatchesInRange(s: Rtc, lower: nat, upper: nat) returns (found: bool)
    requires upper < SECONDS_PER_DAY
    ensures found <==> SomeTimeMatches(s, lower, upper)
  {
    if lower > upper || !AlarmTimeFieldsValid(s) {
      if lower <= upper && SomeTimeMatches(s, lower, upper) {
        var rest: nat :| lower <= rest <= upper && AlarmTimeMatches(s, rest);
        MatchingTimeIsValid(s, rest);
      }
      return false;
    }
    if lower == 0 && upper == SECONDS_PER_DAY - 1 {
      WholeDay(s);
      return true;
    }
    for rest := lower to upper + 1
      invariant !exists earlier: nat :: lower <= earlier < rest && AlarmTimeMatches(s, earlier)
    {
      if AlarmTimeMatches(s, rest) {
        return true;
      }
    }
    return false;
  }

  // Days that match

  /** Some second of an interval matches. */
  ghost predicate MatchesWithin(s: Rtc, clock: ClockState, first: nat, last: nat)
    requires clock.Valid()
  {
    exists i: nat :: first <= i <= last && AlarmAfter(s, clock, i)
  }

  /** No second of the interval matches before a day starts. */
  ghost predicate NoneBefore(s: Rtc, clock: ClockState, first: nat, last: nat, day: nat)
    requires clock.Valid()
  {
    forall i: nat :: first <= i <= last && clock.SecondsOfDay() + i < day * SECONDS_PER_DAY ==> !AlarmAfter(s, clock, i)
  }

  /** The seconds of one day that fall into an interval. */
  predicate DayBounds(clock: ClockState, first: nat, last: nat, day: nat, lower: nat, upper: nat) {
    var a, b, start := clock.SecondsOfDay() + first, clock.SecondsOfDay() + last, day * SECONDS_PER_DAY;
    && start <= b
    && lower == (if a >= start then a - start else 0)
    && upper == if b < start + SECONDS_PER_DAY then b - start else SECONDS_PER_DAY - 1
  }

  lemma DayClear(s: Rtc, clock: ClockState, first: nat, last: nat, day: nat, lower: nat, upper: nat)
    requires clock.Valid() && DayBounds(clock, first, last, day, lower, upper) && upper < SECONDS_PER_DAY
    requires NoneBefore(s, clock, first, last, day)
    requires !(AlarmDateMatches(s, DaysLater(clock.date, day)) && SomeTimeMatches(s, lower, upper))
    ensures NoneBefore(s, clock, first, last, day + 1)
  {
    hide AlarmAfter, AlarmDateMatches, AlarmTimeMatches;
    forall i: nat | first <= i <= last && clock.SecondsOfDay() + i < (day + 1) * SECONDS_PER_DAY
      ensures !AlarmAfter(s, clock, i)
    {
      if clock.SecondsOfDay() + i >= day * SECONDS_PER_DAY {
        var rest := clock.SecondsOfDay() + i - day * SECONDS_PER_DAY;
        AlarmAfterIs(s, clock, i, day, rest);
        assert lower <= rest <= upper;
      }
    }
  }

  lemma DayHit(s: Rtc, clock: ClockState, first: nat, last: nat, day: nat, lower: nat, upper: nat)
    requires clock.Valid() && DayBounds(clock, first, last, day, lower, upper) && upper < SECONDS_PER_DAY && AlarmEnables(s) != 0
    requires AlarmDateMatches(s, DaysLater(clock.date, day)) && SomeTimeMatches(s, lower, upper)
    ensures MatchesWithin(s, clock, first, last)
  {
    hide AlarmAfter, AlarmDateMatches, AlarmTimeMatches;
    var rest: nat :| lower <= rest <= upper && AlarmTimeMatches(s, rest);
    var i := day * SECONDS_PER_DAY + rest - clock.SecondsOfDay();
    AlarmAfterIs(s, clock, i, day, rest);
  }

  /** A day later than one cycle repeats a day within it. */
  lemma RepeatsWithinCycle(s: Rtc, clock: ClockState, i: nat, day: nat, rest: nat, start: nat, cycle: nat)
    returns (earlier: nat)
    requires clock.Valid() && rest < SECONDS_PER_DAY && cycle == CALENDAR_CYCLE_DAYS
    requires clock.SecondsOfDay() + i == day * SECONDS_PER_DAY + rest && 1 <= start <= day
    ensures clock.SecondsOfDay() + earlier < (start + cycle) * SECONDS_PER_DAY
    ensures start * SECONDS_PER_DAY <= clock.SecondsOfDay() + earlier
    ensures AlarmAfter(s, clock, earlier) == AlarmAfter(s, clock, i)
  {
    hide AlarmAfter, AlarmDateMatches, AlarmTimeMatches;
    var offset, rounds := Divide(day - start, cycle);
    var same := start + offset;
    CyclesRepeat(clock.date, same, rounds);
    earlier := same * SECONDS_PER_DAY + rest - clock.SecondsOfDay();
    assert offset < cycle by { RestIsSmall(day - start, cycle); }
    AlarmAfterIs(s, clock, i, day, rest);
    AlarmAfterIs(s, clock, earlier, same, rest);
  }

  lemma RestIsSmall(value: nat, modulus: nat)
    requires modulus > 0
    ensures value % modulus < modulus
  {
  }

  /** One cycle of whole days without a match means there is none later either. */
  lemma CycleIsEnough(s: Rtc, clock: ClockState, first: nat, last: nat, start: nat, cycle: nat)
    requires clock.Valid() && cycle == CALENDAR_CYCLE_DAYS && 1 <= start
    requires clock.SecondsOfDay() + first < start * SECONDS_PER_DAY
    requires NoneBefore(s, clock, first, last, start + cycle)
    ensures !MatchesWithin(s, clock, first, last)
  {
    hide AlarmAfter;
    forall i: nat | first <= i <= last
      ensures !AlarmAfter(s, clock, i)
    {
      var total := clock.SecondsOfDay() + i;
      if total >= (start + cycle) * SECONDS_PER_DAY {
        var day, rest := total / SECONDS_PER_DAY, total % SECONDS_PER_DAY;
        var earlier := RepeatsWithinCycle(s, clock, i, day, rest, start, cycle);
        assert first <= earlier <= last;
      }
    }
  }

  method AlarmMatchesInRange(s: Rtc, clock: ClockState, first: nat, last: nat) returns (found: bool)
    requires clock.Valid() && AlarmEnables(s) != 0 && first <= last
    ensures found <==> MatchesWithin(s, clock, first, last)
  {
    hide AlarmAfter, AlarmDateMatches, AlarmTimeMatches, SomeTimeMatches, MatchesWithin, NoneBefore, AlarmEnables;
    var firstAbsolute, lastAbsolute := clock.SecondsOfDay() + first, clock.SecondsOfDay() + last;
    var firstDay, lastDay := firstAbsolute / SECONDS_PER_DAY, lastAbsolute / SECONDS_PER_DAY;
    var cycle := CALENDAR_CYCLE_DAYS;
    var limitedLastDay := if lastDay <= firstDay + cycle then lastDay else firstDay + cycle;
    var date := DateAfter(clock.date, firstDay, cycle);
    StartsClear(s, clock, first, last, firstDay);
    for day := firstDay to limitedLastDay + 1
      invariant date == DaysLater(clock.date, day)
      invariant NoneBefore(s, clock, first, last, day)
    {
      var lower := if day == firstDay then firstAbsolute % SECONDS_PER_DAY else 0;
      var upper := if day == lastDay then lastAbsolute % SECONDS_PER_DAY else SECONDS_PER_DAY - 1;
      BoundsAreDay(clock, first, last, day, lower, upper);
      var timeMatches := AlarmTimeMatchesInRange(s, lower, upper);
      if AlarmDateMatches(s, date) && timeMatches {
        DayHit(s, clock, first, last, day, lower, upper);
        return true;
      }
      DayClear(s, clock, first, last, day, lower, upper);
      date := NextDay(date);
    }
    if lastDay <= firstDay + cycle {
      EndsClear(s, clock, first, last, lastDay);
    } else {
      CycleIsEnough(s, clock, first, last, firstDay + 1, cycle);
    }
    return false;
  }

  /** The date loop of the range scan: days modulo the calendar cycle. */
  method DateAfter(date: CalendarDate, days: nat, cycle: nat) returns (later: CalendarDate)
    requires date.Valid() && cycle == CALENDAR_CYCLE_DAYS
    ensures later == DaysLater(date, days)
  {
    later := date;
    for i := 0 to days % cycle
      invariant later == DaysLater(date, i)
    {
      later := NextDay(later);
    }
    DaysModuloCycle(date, days, cycle);
  }

  lemma StartsClear(s: Rtc, clock: ClockState, first: nat, last: nat, firstDay: nat)
    requires clock.Valid() && firstDay == (clock.SecondsOfDay() + first) / SECONDS_PER_DAY
    ensures NoneBefore(s, clock, first, last, firstDay)
  {
  }

  lemma EndsClear(s: Rtc, clock: ClockState, first: nat, last: nat, lastDay: nat)
    requires clock.Valid() && lastDay == (clock.SecondsOfDay() + last) / SECONDS_PER_DAY
    requires NoneBefore(s, clock, first, last, lastDay + 1)
    ensures !MatchesWithin(s, clock, first, last)
  {
    hide AlarmAfter;
  }

  lemma BoundsAreDay(clock: ClockState, first: nat, last: nat, day: nat, lower: nat, upper: nat)
    requires clock.Valid()
    requires first <= last
    requires (clock.SecondsOfDay() + first) / SECONDS_PER_DAY <= day <= (clock.SecondsOfDay() + last) / SECONDS_PER_DAY
    requires lower == if day == (clock.SecondsOfDay() + first) / SECONDS_PER_DAY
                      then (clock.SecondsOfDay() + first) % SECONDS_PER_DAY else 0
    requires upper == if day == (clock.SecondsOfDay() + last) / SECONDS_PER_DAY
                      then (clock.SecondsOfDay() + last) % SECONDS_PER_DAY else SECONDS_PER_DAY - 1
    ensures DayBounds(clock, first, last, day, lower, upper)
  {
    var a, b := clock.SecondsOfDay() + first, clock.SecondsOfDay() + last;
    assert a == a / SECONDS_PER_DAY * SECONDS_PER_DAY + a % SECONDS_PER_DAY;
    assert b == b / SECONDS_PER_DAY * SECONDS_PER_DAY + b % SECONDS_PER_DAY;
  }

  // How long a matching alarm stays on

  /** The finest selected field decides when the alarm goes off again. */
  function SecondsUntilSelectedFieldChanges(s: Rtc, clock: ClockState): (seconds: nat)
    requires clock.Valid()
    ensures seconds >= 1
  {
    if FieldSelected(s, 0) then 1
    else if FieldSelected(s, 1) then 60 - clock.seconds
    else if FieldSelected(s, 2) then (60 - clock.minutes) * 60 - clock.seconds
    else if FieldSelected(s, 3) || FieldSelected(s, 5) then SECONDS_PER_DAY - clock.SecondsOfDay()
    else
      var days := DaysInMonth(clock.date.month, clock.date.leapYear) - clock.date.dayOfMonth + 1;
      days * SECONDS_PER_DAY - clock.SecondsOfDay()
  }

  /** The value that an alarm bit compares. */
  function FieldValue(clock: ClockState, bit: nat): nat {
    if bit == 0 then clock.seconds
    else if bit == 1 then clock.minutes
    else if bit == 2 then clock.hour
    else if bit == 3 then clock.date.dayOfMonth
    else if bit == 4 then clock.date.month
    else clock.date.dayOfWeek
  }

  lemma AlarmByteFits(s: Rtc, clock: ClockState, bit: nat)
    requires clock.Valid() && bit < 6
    ensures AlarmByte(clock, Mode12(s), bit) & AlarmMask(s, bit) == AlarmByte(clock, Mode12(s), bit)
  {
    hide EncodeBcd, EncodeHour, Mode12, HourMask;
    if bit == 2 {
      EncodeHourFits(clock.hour, Mode12(s));
    } else {
      EncodeFits(FieldValue(clock, bit), AlarmMask(s, bit));
    }
  }

  lemma AlarmByteInjective(a: ClockState, b: ClockState, mode12: bool, bit: nat)
    requires a.Valid() && b.Valid() && bit < 6
    requires AlarmByte(a, mode12, bit) == AlarmByte(b, mode12, bit)
    ensures FieldValue(a, bit) == FieldValue(b, bit)
  {
    hide EncodeBcd, EncodeHour;
    if bit == 2 {
      EncodeHourInjective(a.hour, b.hour, mode12);
    } else {
      EncodeInjective(FieldValue(a, bit), FieldValue(b, bit));
    }
  }

  /** Two matching times agree on every selected field. */
  lemma MatchesAgree(s: Rtc, a: ClockState, b: ClockState, bit: nat)
    requires a.Valid() && b.Valid() && bit < 6 && FieldSelected(s, bit)
    requires AlarmMatchesAt(s, a) && AlarmMatchesAt(s, b)
    ensures FieldValue(a, bit) == FieldValue(b, bit)
  {
    hide AlarmByte, AlarmMask, FieldSelected, Mode12, AlarmEnables, FieldValue;
    assert AlarmBitMatches(s, a, bit) && AlarmBitMatches(s, b, bit);
    AlarmByteFits(s, a, bit);
    AlarmByteFits(s, b, bit);
    AlarmByteInjective(a, b, Mode12(s), bit);
  }

  /** A time that agrees with a matching one on every selected field matches. */
  lemma AgreeingMatches(s: Rtc, a: ClockState, b: ClockState)
    requires a.Valid() && b.Valid() && AlarmMatchesAt(s, a)
    requires Agree(s, a, b)
    ensures AlarmMatchesAt(s, b)
  {
    hide EncodeBcd, EncodeHour, AlarmMask, FieldSelected, Mode12, AlarmEnables, SameUnder;
    forall bit: nat | bit < 6
      ensures AlarmBitMatches(s, b, bit)
    {
      assert AlarmBitMatches(s, a, bit);
    }
  }

  /** Within the day, and at the midnight that ends it. */
  lemma LaterToday(clock: ClockState, i: nat) returns (later: ClockState)
    requires clock.Valid() && clock.SecondsOfDay() + i <= SECONDS_PER_DAY
    ensures later == SecondsLater(clock, i) && later.Valid()
    ensures clock.SecondsOfDay() + i < SECONDS_PER_DAY ==>
              later.date == clock.date && later.SecondsOfDay() == clock.SecondsOfDay() + i
    ensures clock.SecondsOfDay() + i == SECONDS_PER_DAY ==>
              later.date == NextDay(clock.date) && later.SecondsOfDay() == 0
  {
    later := SecondsLater(clock, i);
    if clock.SecondsOfDay() + i < SECONDS_PER_DAY {
      SecondsLaterLands(clock, i, 0, clock.SecondsOfDay() + i);
    } else {
      SecondsLaterLands(clock, i, 1, 0);
      assert DaysLater(clock.date, 1) == NextDay(clock.date);
    }
  }

  lemma UntilMinute(clock: ClockState, i: nat)
    requires clock.Valid() && i <= 60 - clock.seconds
    ensures i < 60 - clock.seconds ==>
              SecondsLater(clock, i) == clock.(seconds := SecondsLater(clock, i).seconds)
    ensures i == 60 - clock.seconds ==> SecondsLater(clock, i).minutes != clock.minutes
    ensures i == 1 ==> SecondsLater(clock, i).seconds != clock.seconds
  {
    var later := LaterToday(clock, i);
  }

  lemma UntilHour(clock: ClockState, i: nat)
    requires clock.Valid() && i <= (60 - clock.minutes) * 60 - clock.seconds
    ensures i < (60 - clock.minutes) * 60 - clock.seconds ==>
              SecondsLater(clock, i).hour == clock.hour && SecondsLater(clock, i).date == clock.date
    ensures i == (60 - clock.minutes) * 60 - clock.seconds ==> SecondsLater(clock, i).hour != clock.hour
  {
    var later := LaterToday(clock, i);
  }

  lemma UntilDay(clock: ClockState, i: nat)
    requires clock.Valid() && clock.SecondsOfDay() + i <= SECONDS_PER_DAY
    ensures clock.SecondsOfDay() + i < SECONDS_PER_DAY ==> SecondsLater(clock, i).date == clock.date
    ensures clock.SecondsOfDay() + i == SECONDS_PER_DAY ==>
              (SecondsLater(clock, i).date.dayOfMonth != clock.date.dayOfMonth
               && SecondsLater(clock, i).date.dayOfWeek != clock.date.dayOfWeek)
  {
    var later := LaterToday(clock, i);
    NextDayDiffers(clock.date);
  }

  lemma UntilMonth(clock: ClockState, i: nat, days: nat)
    requires clock.Valid()
    requires days == DaysInMonth(clock.date.month, clock.date.leapYear) - clock.date.dayOfMonth + 1
    requires clock.SecondsOfDay() + i <= days * SECONDS_PER_DAY
    ensures clock.SecondsOfDay() + i < days * SECONDS_PER_DAY ==> SecondsLater(clock, i).date.month == clock.date.month
    ensures clock.SecondsOfDay() + i == days * SECONDS_PER_DAY ==> SecondsLater(clock, i).date.month != clock.date.month
  {
    var total := clock.SecondsOfDay() + i;
    hide SecondsLater, DaysLater, DaysInMonth;
    var day, rest := SplitTotal(total, days);
    MonthChanges(clock.date, days);
    SecondsLaterLands(clock, i, day, rest);
  }

  lemma SplitTotal(total: nat, days: nat) returns (day: nat, rest: nat)
    requires total <= days * SECONDS_PER_DAY
    ensures total == day * SECONDS_PER_DAY + rest && rest < SECONDS_PER_DAY
    ensures if total < days * SECONDS_PER_DAY then day < days else day == days
  {
    day, rest := total / SECONDS_PER_DAY, total % SECONDS_PER_DAY;
  }

  ghost predicate Agree(s: Rtc, a: ClockState, b: ClockState) {
    forall bit: nat :: bit < 6 && FieldSelected(s, bit) ==> FieldValue(a, bit) == FieldValue(b, bit)
  }

  /** The selected fields keep their values until just before the first change, and not at the change. */
  lemma FirstChange(s: Rtc, clock: ClockState, i: nat)
    requires clock.Valid() && AlarmEnables(s) != 0 && i <= SecondsUntilSelectedFieldChanges(s, clock)
    ensures Agree(s, clock, SecondsLater(clock, i)) <==> i < SecondsUntilSelectedFieldChanges(s, clock)
  {
    SomeBit(s);
    hide FieldSelected, SecondsLater, DaysInMonth, AlarmEnables;
    var later := SecondsLater(clock, i);
    if FieldSelected(s, 0) {
      UntilMinute(clock, i);
      NoSecondsLater(clock);
      assert i == 1 ==> FieldValue(later, 0) != FieldValue(clock, 0);
    } else if FieldSelected(s, 1) {
      UntilMinute(clock, i);
      assert i == 60 - clock.seconds ==> FieldValue(later, 1) != FieldValue(clock, 1);
    } else if FieldSelected(s, 2) {
      UntilHour(clock, i);
      assert i == (60 - clock.minutes) * 60 - clock.seconds ==> FieldValue(later, 2) != FieldValue(clock, 2);
    } else if FieldSelected(s, 3) || FieldSelected(s, 5) {
      UntilDay(clock, i);
      assert clock.SecondsOfDay() + i == SECONDS_PER_DAY ==>
          FieldValue(later, 3) != FieldValue(clock, 3) && FieldValue(later, 5) != FieldValue(clock, 5);
    } else {
      var days := DaysInMonth(clock.date.month, clock.date.leapYear) - clock.date.dayOfMonth + 1;
      UntilMonth(clock, i, days);
      assert clock.SecondsOfDay() + i == days * SECONDS_PER_DAY ==> FieldValue(later, 4) != FieldValue(clock, 4);
    }
  }

  lemma NoSecondsLater(clock: ClockState)
    ensures SecondsLater(clock, 0) == clock
  {
  }

  lemma SomeBit(s: Rtc)
    requires AlarmEnables(s) != 0
    ensures FieldSelected(s, 0) || FieldSelected(s, 1) || FieldSelected(s, 2)
         || FieldSelected(s, 3) || FieldSelected(s, 4) || FieldSelected(s, 5)
  {
  }

  lemma NextDayDiffers(date: CalendarDate)
    requires date.Valid()
    ensures NextDay(date).dayOfMonth != date.dayOfMonth && NextDay(date).dayOfWeek != date.dayOfWeek
  {
  }

  /** A matching alarm stays on until the first change and is off at it. */
  lemma StaysOn(s: Rtc, clock: ClockState, i: nat)
    requires clock.Valid() && AlarmAfter(s, clock, 0) && i <= SecondsUntilSelectedFieldChanges(s, clock)
    ensures AlarmAfter(s, clock, i) <==> i < SecondsUntilSelectedFieldChanges(s, clock)
  {
    hide AlarmBitMatches, SecondsUntilSelectedFieldChanges, FieldValue, FieldSelected;
    NoSecondsLater(clock);
    FirstChange(s, clock, i);
    var later := SecondsLater(clock, i);
    if Agree(s, clock, later) {
      AgreeingMatches(s, clock, later);
    } else if AlarmMatchesAt(s, later) {
      var bit: nat :| bit < 6 && FieldSelected(s, bit) && FieldValue(clock, bit) != FieldValue(later, bit);
      MatchesAgree(s, clock, later, bit);
    }
  }

  /** Going from off to on takes an edge. */
  lemma {:induction false} EdgeBetween(s: Rtc, clock: ClockState, off: nat, on: nat)
    requires clock.Valid() && off < on && !FlagAfter(s, clock, off) && AlarmAfter(s, clock, on)
    ensures AlarmEdge(s, clock, on)
  {
    hide AlarmAfter;
    if FlagAfter(s, clock, on - 1) {
      EdgeBetween(s, clock, off, on - 1);
    }
  }

  lemma EdgeExtends(s: Rtc, clock: ClockState, a: nat, b: nat)
    requires clock.Valid() && a <= b && AlarmEdge(s, clock, a)
    ensures AlarmEdge(s, clock, b)
  {
    hide AlarmAfter;
  }

  /** From a second where the alarm is off, an edge is a match; before it, there was none. */
  lemma EdgeIsMatch(s: Rtc, clock: ClockState, off: nat, seconds: nat)
    requires clock.Valid() && off < seconds && !FlagAfter(s, clock, off)
    requires forall i: nat :: i < off ==> FlagAfter(s, clock, i)
    ensures AlarmEdge(s, clock, seconds) <==> MatchesWithin(s, clock, off + 1, seconds)
  {
    hide AlarmAfter, FlagAfter;
    if MatchesWithin(s, clock, off + 1, seconds) {
      var on: nat :| off + 1 <= on <= seconds && AlarmAfter(s, clock, on);
      EdgeBetween(s, clock, off, on);
      EdgeExtends(s, clock, on, seconds);
    }
    if AlarmEdge(s, clock, seconds) {
      var i: nat :| i < seconds && !FlagAfter(s, clock, i) && AlarmAfter(s, clock, i + 1);
      assert off + 1 <= i + 1 <= seconds;
    }
  }

  lemma NoAlarmNoEdge(s: Rtc, clock: ClockState, seconds: nat)
    requires clock.Valid() && (AlarmEnables(s) == 0 || seconds == 0)
    ensures !AlarmEdge(s, clock, seconds)
  {
  }

  /** A flag that is up rightly stays up before the first change. */
  lemma FlagStaysOn(s: Rtc, clock: ClockState, i: nat)
    requires clock.Valid() && s.alarmMatchActive && AlarmAfter(s, clock, 0)
    requires i <= SecondsUntilSelectedFieldChanges(s, clock)
    ensures FlagAfter(s, clock, i) <==> i < SecondsUntilSelectedFieldChanges(s, clock)
  {
    StaysOn(s, clock, i);
    hide AlarmAfter, SecondsUntilSelectedFieldChanges;
  }

  // The prediction

  /** The code's prediction: a match after the first change, if the flag is up, and any match if it is not. */
  ghost predicate EdgePredicted(s: Rtc, clock: ClockState, seconds: nat)
    requires clock.Valid()
  {
    && seconds != 0 && AlarmEnables(s) != 0
    && MatchesWithin(s, clock, if s.alarmMatchActive then SecondsUntilSelectedFieldChanges(s, clock) + 1 else 1, seconds)
  }

  /**
   The prediction is wrong.  The flag is up without a match, and either the
   alarm first comes on at the very change that the prediction leaves out and
   never after it, or it comes on at the first second, where the flag hides it
   from the steps, and is still on when the prediction starts to look, and not
   again later.
   */
  ghost predicate EdgeMisjudged(s: Rtc, clock: ClockState, seconds: nat)
    requires clock.Valid()
  {
    && s.alarmMatchActive && !AlarmAfter(s, clock, 0) && AlarmEnables(s) != 0
    && var change := SecondsUntilSelectedFieldChanges(s, clock);
       if change > 1 then change <= seconds && AlarmAfter(s, clock, change) && !MatchesWithin(s, clock, change + 1, seconds)
       else
         var off := 1 + SecondsUntilSelectedFieldChanges(s, SecondsLater(clock, 1));
         AlarmAfter(s, clock, 1) && seconds >= 2 && off > 2 && !MatchesWithin(s, clock, off + 1, seconds)
  }

  lemma PredictionIsExact(s: Rtc, clock: ClockState, seconds: nat)
    requires clock.Valid() && (s.alarmMatchActive ==> AlarmAfter(s, clock, 0))
    ensures EdgePredicted(s, clock, seconds) <==> AlarmEdge(s, clock, seconds)
  {
    if seconds == 0 || AlarmEnables(s) == 0 {
      NoAlarmNoEdge(s, clock, seconds);
    } else {
      hide AlarmAfter, AlarmEnables, SecondsUntilSelectedFieldChanges, AlarmEdge;
      var first := if s.alarmMatchActive then SecondsUntilSelectedFieldChanges(s, clock) + 1 else 1;
      forall i: nat | s.alarmMatchActive && i < first
        ensures FlagAfter(s, clock, i) <==> i < first - 1
      {
        FlagStaysOn(s, clock, i);
      }
      if first <= seconds {
        EdgeIsMatch(s, clock, first - 1, seconds);
      } else {
        NeverOff(s, clock, seconds);
      }
    }
  }

  lemma NeverOff(s: Rtc, clock: ClockState, seconds: nat)
    requires clock.Valid() && forall i: nat :: i < seconds ==> FlagAfter(s, clock, i)
    ensures !AlarmEdge(s, clock, seconds)
  {
    hide AlarmAfter, FlagAfter;
  }

  /** A time without a match stays without one before the first change. */
  lemma StaysOff(s: Rtc, clock: ClockState, i: nat)
    requires clock.Valid() && AlarmEnables(s) != 0 && !AlarmAfter(s, clock, 0)
    requires i < SecondsUntilSelectedFieldChanges(s, clock)
    ensures !AlarmAfter(s, clock, i)
  {
    FirstChange(s, clock, i);
    NoSecondsLater(clock);
    hide AlarmBitMatches, SecondsUntilSelectedFieldChanges, FieldValue, FieldSelected;
    var later := SecondsLater(clock, i);
    if AlarmMatchesAt(s, later) {
      assert Agree(s, later, clock) by {
        hide SecondsLater;
        assert Agree(s, clock, later);
      }
      AgreeingMatches(s, later, clock);
    }
  }

  lemma {:induction false} LaterAdds(clock: ClockState, a: nat, b: nat)
    ensures SecondsLater(SecondsLater(clock, a), b) == SecondsLater(clock, a + b)
  {
    if b != 0 {
      LaterAdds(clock, a, b - 1);
    }
  }

  /** A match at the first second lasts to the next change. */
  lemma OnFromFirst(s: Rtc, clock: ClockState, i: nat)
    requires clock.Valid() && AlarmAfter(s, clock, 1) && i >= 1
    requires i <= 1 + SecondsUntilSelectedFieldChanges(s, SecondsLater(clock, 1))
    ensures AlarmAfter(s, clock, i) <==> i < 1 + SecondsUntilSelectedFieldChanges(s, SecondsLater(clock, 1))
  {
    hide AlarmAfter, SecondsUntilSelectedFieldChanges, SecondsLater;
    AlarmShifts(s, clock, i - 1);
    AlarmShifts(s, clock, 0);
    StaysOn(s, SecondsLater(clock, 1), i - 1);
  }

  lemma AlarmShifts(s: Rtc, clock: ClockState, i: nat)
    requires clock.Valid()
    ensures AlarmAfter(s, SecondsLater(clock, 1), i) == AlarmAfter(s, clock, 1 + i)
  {
    LaterAdds(clock, 1, i);
    hide AlarmMatchesAt, SecondsLater;
  }

  /** The first second that can match, and the others. */
  lemma FirstMatch(s: Rtc, clock: ClockState, from: nat, first: nat, seconds: nat)
    requires clock.Valid() && from <= first && forall i: nat :: i < first ==> !AlarmAfter(s, clock, i)
    ensures MatchesWithin(s, clock, from, seconds) <==>
              (first <= seconds && AlarmAfter(s, clock, first)) || MatchesWithin(s, clock, first + 1, seconds)
  {
    hide AlarmAfter;
    if MatchesWithin(s, clock, from, seconds) {
      var i: nat :| from <= i <= seconds && AlarmAfter(s, clock, i);
      assert i >= first;
    }
  }

  /** The prediction fails exactly there. */
  lemma PredictionFails(s: Rtc, clock: ClockState, seconds: nat)
    requires clock.Valid()
    ensures EdgeMisjudged(s, clock, seconds) <==> (EdgePredicted(s, clock, seconds) <==> !AlarmEdge(s, clock, seconds))
  {
    if s.alarmMatchActive ==> AlarmAfter(s, clock, 0) {
      PredictionIsExact(s, clock, seconds);
      hide AlarmAfter, AlarmEdge, EdgePredicted;
    } else if seconds == 0 || AlarmEnables(s) == 0 {
      NoAlarmNoEdge(s, clock, seconds);
    } else {
      hide AlarmAfter, AlarmEnables, AlarmEdge, SecondsUntilSelectedFieldChanges;
      if SecondsUntilSelectedFieldChanges(s, clock) > 1 {
        FailsLater(s, clock, seconds);
      } else {
        FailsAtOnce(s, clock, seconds);
      }
    }
  }

  lemma FailsLater(s: Rtc, clock: ClockState, seconds: nat)
    requires clock.Valid() && s.alarmMatchActive && !AlarmAfter(s, clock, 0) && AlarmEnables(s) != 0 && seconds > 0
    requires SecondsUntilSelectedFieldChanges(s, clock) > 1
    ensures EdgeMisjudged(s, clock, seconds) <==> (EdgePredicted(s, clock, seconds) <==> !AlarmEdge(s, clock, seconds))
  {
    var change := SecondsUntilSelectedFieldChanges(s, clock);
    hide AlarmAfter, FlagAfter, AlarmEnables, AlarmEdge, SecondsUntilSelectedFieldChanges;
    forall i: nat | i < change
      ensures !AlarmAfter(s, clock, i)
    {
      StaysOff(s, clock, i);
    }
    FlagAtFirst(s, clock);
    FlagIsMatch(s, clock, 1);
    if seconds > 1 {
      EdgeIsMatch(s, clock, 1, seconds);
    } else {
      NeverOff(s, clock, seconds);
    }
    FirstMatch(s, clock, 2, change, seconds);
    hide MatchesWithin;
  }

  lemma FailsAtOnce(s: Rtc, clock: ClockState, seconds: nat)
    requires clock.Valid() && s.alarmMatchActive && !AlarmAfter(s, clock, 0) && AlarmEnables(s) != 0 && seconds > 0
    requires SecondsUntilSelectedFieldChanges(s, clock) == 1
    ensures EdgeMisjudged(s, clock, seconds) <==> (EdgePredicted(s, clock, seconds) <==> !AlarmEdge(s, clock, seconds))
  {
    var off := if AlarmAfter(s, clock, 1) then 1 + SecondsUntilSelectedFieldChanges(s, SecondsLater(clock, 1)) else 1;
    hide AlarmAfter, AlarmEnables, AlarmEdge, SecondsUntilSelectedFieldChanges;
    forall i: nat | 1 <= i <= off
      ensures AlarmAfter(s, clock, i) <==> i < off
    {
      if AlarmAfter(s, clock, 1) {
        OnFromFirst(s, clock, i);
      }
    }
    FlagAtFirst(s, clock);
    forall i: nat | i > 0
      ensures FlagAfter(s, clock, i) == AlarmAfter(s, clock, i)
    {
      FlagIsMatch(s, clock, i);
    }
    hide FlagAfter;
    if off < seconds {
      EdgeIsMatch(s, clock, off, seconds);
    } else {
      NeverOff(s, clock, seconds);
    }
    if off > 2 && seconds >= 2 {
      assert AlarmAfter(s, clock, 2);
    }
  }

  /** Looks for the edge in one go, without stepping through the interval. */
  method AlarmEdgeDuring(s: Rtc, clock: ClockState, seconds: nat) returns (edge: bool)
    requires clock.Valid()
    ensures edge <==> EdgePredicted(s, clock, seconds)
    ensures EdgeMisjudged(s, clock, seconds) <==> (edge <==> !AlarmEdge(s, clock, seconds))
  {
    PredictionFails(s, clock, seconds);
    hide AlarmAfter, AlarmEdge, EdgeMisjudged, SecondsUntilSelectedFieldChanges;
    if seconds == 0 || AlarmEnables(s) == 0 {
      return false;
    }
    hide AlarmEnables;
    var first := 1;
    if s.alarmMatchActive {
      var firstChange := SecondsUntilSelectedFieldChanges(s, clock);
      if seconds <= firstChange {
        return false;
      }
      first := firstChange + 1;
    }
    edge := AlarmMatchesInRange(s, clock, first, seconds);
  }
}
