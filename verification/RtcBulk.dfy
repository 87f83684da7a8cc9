/**
 The closed forms of the bulk path: which events an interval raises, what the
 counters show after a jump, and that a jump reaches what stepping reaches.
 */
module RtcBulk {
  import opened Options
  import opened Arithmetic
  import opened Bcd
  import opened Calendar
  import opened ClockTime
  import opened RtcState
  import opened RtcMotion
  import opened RtcReach
  import opened RtcAlarm

  // Events

  lemma {:induction false} SecondsCount(clock: ClockState, i: nat) returns (minutes: nat)
    requires clock.Valid()
    ensures clock.seconds + i == 60 * minutes + SecondsLater(clock, i).seconds
  {
    if i == 0 {
      minutes := 0;
    } else {
      var before := SecondsCount(clock, i - 1);
      minutes := if SecondsLater(clock, i - 1).seconds == 59 then before + 1 else before;
    }
  }

  lemma ShowsTarget(clock: ClockState, i: nat)
    requires clock.Valid()
    ensures OnTenSeconds(SecondsLater(clock, i)) <==> IsMultiple(clock.seconds + i, 10)
    ensures OnMinute(SecondsLater(clock, i)) <==> IsMultiple(clock.seconds + i, 60)
  {
    var minutes := SecondsCount(clock, i);
    var second := SecondsLater(clock, i).seconds;
    hide SecondsLater;
    UniqueRemainder(clock.seconds + i, minutes, second, 60);
    UniqueRemainder(clock.seconds + i, 6 * minutes + second / 10, second % 10, 10);
  }

  /** The second-based events by the closed form. */
  lemma TargetsAreExact(clock: ClockState, seconds: nat)
    requires clock.Valid()
    ensures CrossesCyclicTarget(clock.seconds, seconds, 10) <==> TenSecondsPassed(clock, seconds)
    ensures CrossesCyclicTarget(clock.seconds, seconds, 60) <==> MinutePassed(clock, seconds)
  {
    hide CrossesCyclicTarget, OnTenSeconds, OnMinute, IsMultiple, SecondsLater;
    CrossingIsExact(clock.seconds, seconds, 10);
    CrossingIsExact(clock.seconds, seconds, 60);
    forall i: nat
      ensures OnTenSeconds(SecondsLater(clock, i)) <==> IsMultiple(clock.seconds + i, 10)
      ensures OnMinute(SecondsLater(clock, i)) <==> IsMultiple(clock.seconds + i, 60)
    {
      ShowsTarget(clock, i);
    }
    if MeetsMultiple(clock.seconds, seconds, 10) {
      var count: nat :| clock.seconds < count <= clock.seconds + seconds && IsMultiple(count, 10);
      assert OnTenSeconds(SecondsLater(clock, count - clock.seconds));
    }
    if MeetsMultiple(clock.seconds, seconds, 60) {
      var count: nat :| clock.seconds < count <= clock.seconds + seconds && IsMultiple(count, 60);
      assert OnMinute(SecondsLater(clock, count - clock.seconds));
    }
    if TenSecondsPassed(clock, seconds) {
      var i: nat :| 1 <= i <= seconds && OnTenSeconds(SecondsLater(clock, i));
      assert IsMultiple(clock.seconds + i, 10);
    }
    if MinutePassed(clock, seconds) {
      var i: nat :| 1 <= i <= seconds && OnMinute(SecondsLater(clock, i));
      assert IsMultiple(clock.seconds + i, 60);
    }
  }

  /** The events of the bulk path, gathered unit by unit. */
  function BulkEvents(clock: ClockState, hundredths: nat, seconds: nat): bv8 {
    var e0 := PERIODIC_MILLISECOND;
    if hundredths == 0 then e0
    else
      var e1 := e0 | PERIODIC_TEN_MILLISECONDS
                | Flag(CrossesCyclicTarget(clock.hundredths, hundredths, 10), PERIODIC_HUNDRED_MILLISECONDS);
      if seconds == 0 then e1
      else
        e1 | PERIODIC_SECOND
        | Flag(CrossesCyclicTarget(clock.seconds, seconds, 10), PERIODIC_TEN_SECONDS)
        | Flag(CrossesCyclicTarget(clock.seconds, seconds, 60), PERIODIC_MINUTE)
  }

  lemma EventsAreExact(clock: ClockState, milliseconds: nat, hundredths: nat, seconds: nat)
    requires clock.Valid() && milliseconds > 0
    requires 100 * seconds <= clock.hundredths + hundredths
    ensures BulkEvents(clock, hundredths, seconds) == EventsDuring(clock, milliseconds, hundredths, seconds)
  {
    TargetsAreExact(clock, seconds);
    CrossingIsExact(clock.hundredths, hundredths, 10);
    hide CrossesCyclicTarget, TenSecondsPassed, MinutePassed;
    if hundredths == 0 {
      assert seconds == 0;
      NoTargets(clock);
    } else if seconds == 0 {
      NoTargets(clock);
    }
  }

  lemma NoTargets(clock: ClockState)
    ensures !TenSecondsPassed(clock, 0) && !MinutePassed(clock, 0) && !HundredMillisecondsPassed(clock, 0)
  {
  }

  // Counters

  /** Storing a counter value. */
  lemma SetCounterMoves(s: Rtc, register: nat, mask: bv8, value: nat) returns (t: Rtc)
    requires IsCounter(register) && mask == ClockBits(register, Mode12(s))
    requires value < 100 && FieldFits(mask, value + 1)
    ensures t == Put(s, register, WithField(s.registers[register], mask, value))
    ensures t == Put(s, register, t.registers[register])
    ensures Holds(t.registers[register], mask, value)
    ensures SameRest(s, t) && Mode12(t) == Mode12(s) && LeapPhase(t) == LeapPhase(s)
  {
    hide *;
    CounterExists(register);
    var raw := s.registers[register];
    var written := WithField(raw, mask, value);
    WriteField(raw, mask, value);
    AgreeSymmetric(written, raw, mask);
    FieldWriteKeepsRest(s, register, written);
    t := Put(s, register, written);
    WrittenBits(s, register, written);
  }

  /** The hour byte that the bulk path stores. */
  function HourByte(raw: bv8, mode12: bool, hour: nat): bv8
    requires hour < 24
  {
    if mode12 then WithHour12(raw, HourDigits(hour), hour >= 12) else WithField(raw, 0x3f, hour)
  }

  lemma SetHourMoves(s: Rtc, hour: nat) returns (t: Rtc)
    requires hour < 24
    ensures t == Put(s, HOURS, HourByte(s.registers[HOURS], Mode12(s), hour))
    ensures t == Put(s, HOURS, t.registers[HOURS])
    ensures HoldsHour(t.registers[HOURS], Mode12(s), hour)
    ensures SameRest(s, t) && Mode12(t) == Mode12(s) && LeapPhase(t) == LeapPhase(s)
  {
    var raw := s.registers[HOURS];
    var written := HourByte(raw, Mode12(s), hour);
    HourBytes(raw, Mode12(s), hour);
    hide HourByte, HoldsHour, Mode12, SameRest, LeapPhase;
    FieldWriteKeepsRest(s, HOURS, written);
    t := Put(s, HOURS, written);
    WrittenBits(s, HOURS, written);
  }

  lemma HourBytes(raw: bv8, mode12: bool, hour: nat)
    requires hour < 24
    ensures HoldsHour(HourByte(raw, mode12, hour), mode12, hour)
    ensures AgreeOutside(raw, HourByte(raw, mode12, hour), ClockBits(HOURS, mode12))
  {
    hide WithHour12, WithField, EncodeBcd, EncodeHour;
    if mode12 {
      WriteHour12(raw, hour);
    } else {
      WriteField(raw, 0x3f, hour);
      AgreeSymmetric(WithField(raw, 0x3f, hour), raw, 0x3f);
      assert Holds(WithField(raw, 0x3f, hour), 0x3f, hour);
      PlainHour(WithField(raw, 0x3f, hour), hour);
    }
  }

  lemma PlainHour(raw: bv8, hour: nat)
    requires hour < 24
    ensures HoldsHour(raw, false, hour) <==> Holds(raw, 0x3f, hour)
  {
  }

  /** The time counters after a jump, before the days are counted. */
  function SetTime(s: Rtc, hour: nat, minute: nat, second: nat): Rtc
    requires hour < 24 && minute < 60 && second < 60
  {
    var s1 := Put(s, SECONDS, WithField(s.registers[SECONDS], 0x7f, second));
    var s2 := Put(s1, MINUTES, WithField(s1.registers[MINUTES], 0x7f, minute));
    Put(s2, HOURS, HourByte(s2.registers[HOURS], Mode12(s2), hour))
  }

  lemma SetTimeMoves(s: Rtc, clock: ClockState, hour: nat, minute: nat, second: nat)
    requires Shows(s, clock) && hour < 24 && minute < 60 && second < 60
    ensures Shows(SetTime(s, hour, minute, second), clock.(hour := hour, minutes := minute, seconds := second))
    ensures SameRest(s, SetTime(s, hour, minute, second))
  {
    hide Holds, HoldsHour, LeapPhase, Mode12, SameRest, WithField, HourByte, ShowsDate;
    var s1 := SetCounterMoves(s, SECONDS, 0x7f, second);
    PutKeepsTime(s, SECONDS, s1.registers[SECONDS]);
    PutKeepsDate(s, SECONDS, s1.registers[SECONDS], clock.date);
    var s2 := SetCounterMoves(s1, MINUTES, 0x7f, minute);
    PutKeepsTime(s1, MINUTES, s2.registers[MINUTES]);
    PutKeepsDate(s1, MINUTES, s2.registers[MINUTES], clock.date);
    var s3 := SetHourMoves(s2, hour);
    PutKeepsDate(s2, HOURS, s3.registers[HOURS], clock.date);
    SameRestChains(s, s1, s2);
    SameRestChains(s, s2, s3);
  }

  lemma {:induction false} AdvanceDaysMoves(s: Rtc, clock: ClockState, days: nat)
    requires Shows(s, clock)
    ensures Shows(AdvanceDays(s, days), clock.(date := DaysLater(clock.date, days)))
    ensures SameRest(s, AdvanceDays(s, days))
  {
    hide Holds, HoldsHour, ShowsDate, SameRest, AdvanceDay, NextDay, Mode12;
    if days == 0 {
      RestIsReflexive(s);
    } else {
      AdvanceDaysMoves(s, clock, days - 1);
      var t := AdvanceDays(s, days - 1);
      AdvanceDayMoves(t, DaysLater(clock.date, days - 1));
      SameRestChains(s, t, AdvanceDay(t));
      SameModeOfRest(t, AdvanceDay(t));
    }
  }

  lemma SameModeOfRest(s: Rtc, t: Rtc)
    requires SameRest(s, t)
    ensures Mode12(s) == Mode12(t)
  {
    SameModes(s, t);
  }

  lemma RestIsReflexive(s: Rtc)
    ensures SameRest(s, s)
  {
  }

  /** The jump by seconds: time of day by division, days modulo the calendar cycle. */
  lemma JumpMoves(s: Rtc, clock: ClockState, seconds: nat, days: nat, rest: nat, cycle: nat) returns (t: Rtc)
    requires Shows(s, clock) && cycle == CALENDAR_CYCLE_DAYS && rest < SECONDS_PER_DAY
    requires clock.SecondsOfDay() + seconds == days * SECONDS_PER_DAY + rest
    ensures rest / 3600 < 24
    ensures t == AdvanceDays(SetTime(s, rest / 3600, rest / 60 % 60, rest % 60), days % cycle)
    ensures Shows(t, SecondsLater(clock, seconds)) && SameRest(s, t)
  {
    var later := SecondsLater(clock, seconds);
    SecondsLaterLands(clock, seconds, days, rest);
    TimeOfRest(later, rest);
    DaysModuloCycle(clock.date, days, cycle);
    hide Shows, SetTime, AdvanceDays, SameRest, DaysLater, SecondsLater;
    var timed := SetTime(s, later.hour, later.minutes, later.seconds);
    var moved := clock.(hour := later.hour, minutes := later.minutes, seconds := later.seconds);
    SetTimeMoves(s, clock, later.hour, later.minutes, later.seconds);
    AdvanceDaysMoves(timed, moved, days % cycle);
    t := AdvanceDays(timed, days % cycle);
    SameRestChains(s, timed, t);
  }

  lemma TimeOfRest(clock: ClockState, rest: nat)
    requires clock.Valid() && clock.SecondsOfDay() == rest
    ensures clock.hour == rest / 3600 && clock.minutes == rest / 60 % 60 && clock.seconds == rest % 60
  {
    assert rest / 60 == clock.hour * 60 + clock.minutes;
    assert clock.SecondsOfDay() < SECONDS_PER_DAY;
  }

  // The bulk state

  /** The bulk path's own finish: the copies once, the edge it predicted, the final match. */
  function FinishJump(s: Rtc, edge: bool): Rtc {
    var s1 := if TimeSaveEnabled(s) then CopyTimeSaves(s, 5) else s;
    var s2 := if edge then Put(s1, MAIN_STATUS, s1.registers[MAIN_STATUS] | ALARM_PENDING) else s1;
    s2.(alarmMatchActive := CurrentAlarmMatches(s1))
  }

  lemma CopiedFollows(s: Rtc) returns (u: Rtc)
    ensures u == if TimeSaveEnabled(s) then CopyTimeSaves(s, 5) else s
    ensures forall r: nat :: r < 32 && !(SECONDS_SAVE <= r <= MONTH_SAVE) ==> u.registers[r] == s.registers[r]
    ensures SavesFollow(s, u, true) && CurrentAlarmMatches(u) == CurrentAlarmMatches(s)
    ensures u == s.(registers := u.registers)
  {
    u := if TimeSaveEnabled(s) then CopyTimeSaves(s, 5) else s;
    CopiesSave(s, 5);
    CopyKeepsAlarm(s, u);
    hide CounterMask, TimeSaveEnabled, CurrentAlarmMatches, CopyTimeSaves, Mode12;
  }

  lemma FinishJumpFollows(s: Rtc, edge: bool) returns (t: Rtc)
    ensures t == FinishJump(s, edge)
    ensures forall r: nat :: r < 32 && r != MAIN_STATUS && !(SECONDS_SAVE <= r <= MONTH_SAVE) ==>
              t.registers[r] == s.registers[r]
    ensures SavesFollow(s, t, true) && StatusFollows(s, t, 0, edge)
    ensures t.alarmMatchActive == CurrentAlarmMatches(s)
    ensures t == s.(registers := t.registers, alarmMatchActive := t.alarmMatchActive)
  {
    t := FinishJump(s, edge);
    hide CounterMask, TimeSaveEnabled, CurrentAlarmMatches, CopyTimeSaves, Pending, SavesFollow;
    var u := CopiedFollows(s);
    SavesKeep(s, u, t, true);
    OnlyEdge(s.registers[MAIN_STATUS], s.registers[PERIODIC_FLAG], s.alternate[INTERRUPT_CONTROL_0]);
  }

  /** The bulk path's hundredths. */
  lemma SetHundredthsMoves(s: Rtc, clock: ClockState, millisecond: nat, value: nat) returns (u: Rtc)
    requires Shows(s, clock) && value < 100
    ensures u == Put(s.(millisecond := millisecond), HUNDREDTHS, WithField(s.registers[HUNDREDTHS], 0xff, value))
    ensures Shows(u, clock.(hundredths := value)) && SameConfig(s, u) && OnlyHundredth(s, u)
    ensures u.millisecond == millisecond && u.alarmMatchActive == s.alarmMatchActive
  {
    var s0 := s.(millisecond := millisecond);
    hide Holds, HoldsHour, LeapPhase, Mode12, SameRest, ShowsDate, SameConfig, WithField;
    ShowsKeeps(s, s0, clock);
    u := SetCounterMoves(s0, HUNDREDTHS, 0xff, value);
    PutKeepsTime(s0, HUNDREDTHS, u.registers[HUNDREDTHS]);
    PutKeepsDate(s0, HUNDREDTHS, u.registers[HUNDREDTHS], clock.date);
    UntouchedConfig(s, s0);
    RestConfig(s0, u);
    SameConfigChains(s, s0, u);
    RestFields(s0, u);
  }

  /** A jump within the second. */
  lemma BulkWithinSecond(s: Rtc, clock: ClockState, milliseconds: nat, hundredths: nat, u: Rtc)
    requires Regular(s) && DecodeClock(s) == Some(clock) && milliseconds > 0
    requires clock.hundredths + hundredths < 100 && u.millisecond < 10
    requires s.millisecond + milliseconds == 10 * hundredths + u.millisecond
    requires Shows(u, clock.(hundredths := clock.hundredths + hundredths)) && SameConfig(s, u) && OnlyHundredth(s, u)
    requires u.alarmMatchActive == s.alarmMatchActive
    ensures RaisePeriodicEvents(u, BulkEvents(clock, hundredths, 0)) == AdvanceMilliseconds(s, milliseconds)
  {
    hide Regular, DecodeClock, CurrentAlarmMatches, OnlyHundredth, BulkEvents, AdvanceMilliseconds, RaisePeriodicEvents,
      Shows, SameConfig, SavesFollow, StatusFollows, EventsDuring, AlarmEdge, AlarmAfter, FlagAfter;
    assert SecondsLater(clock, 0) == clock;
    hide SecondsLater;
    StartReached(s, clock);
    EventsAreExact(clock, milliseconds, hundredths, 0);
    NoEvents(s, clock);
    FlagAtFirst(s, clock);
    HundredthKeeps(s, s, u, false, 0, false);
    ZeroOr(EventsDuring(clock, milliseconds, hundredths, 0));
    RaiseReaches(s, clock, milliseconds, hundredths, 0, u, BulkEvents(clock, hundredths, 0), 0);
    BulkIsStepping(s, clock, milliseconds, hundredths, 0, RaisePeriodicEvents(u, BulkEvents(clock, hundredths, 0)));
  }

  lemma ZeroOr(a: bv8)
    ensures 0 | a == a
  {
  }

  /** A state that `Reached` describes is the stepper's. */
  lemma BulkIsStepping(s: Rtc, clock: ClockState, milliseconds: nat, hundredths: nat, seconds: nat, t: Rtc)
    requires Regular(s) && DecodeClock(s) == Some(clock)
    requires Reached(s, clock, milliseconds, hundredths, seconds, t)
    ensures t == AdvanceMilliseconds(s, milliseconds)
  {
    hide Regular, DecodeClock, CurrentAlarmMatches, AdvanceMilliseconds, Shows, SameConfig, SavesFollow, StatusFollows,
      EventsDuring, AlarmEdge, AlarmAfter, FlagAfter, SecondsLater;
    var h, k := StepperReaches(s, clock, milliseconds);
    ReachedOnce(s, clock, milliseconds, hundredths, seconds, t, h, k, AdvanceMilliseconds(s, milliseconds));
  }

  /** A jump over seconds: `u` after the hundredths, `w` after the seconds. */
  lemma BulkOverSeconds(s: Rtc, clock: ClockState, milliseconds: nat, hundredths: nat, seconds: nat,
                        u: Rtc, w: Rtc, edge: bool)
    requires Regular(s) && DecodeClock(s) == Some(clock) && milliseconds > 0 && seconds > 0
    requires s.millisecond + milliseconds == 10 * hundredths + u.millisecond && u.millisecond < 10
    requires 100 * seconds <= clock.hundredths + hundredths < 100 * seconds + 100
    requires SameConfig(s, u) && OnlyHundredth(s, u) && u.alarmMatchActive == s.alarmMatchActive
    requires Shows(w, SecondsLater(clock, seconds).(hundredths := clock.hundredths + hundredths - 100 * seconds))
    requires SameRest(u, w)
    requires edge == AlarmEdge(s, clock, seconds)
    ensures RaisePeriodicEvents(FinishJump(w, edge), BulkEvents(clock, hundredths, seconds))
         == AdvanceMilliseconds(s, milliseconds)
  {
    hide Regular, DecodeClock, CurrentAlarmMatches, OnlyHundredth, BulkEvents, AdvanceMilliseconds, RaisePeriodicEvents,
      Shows, SameConfig, SavesFollow, StatusFollows, EventsDuring, AlarmEdge, AlarmAfter, FlagAfter, SecondsLater, SameRest,
      FinishJump;
    var later := SecondsLater(clock, seconds);
    var shown := later.(hundredths := clock.hundredths + hundredths - 100 * seconds);
    var v := FinishedJump(s, u, w, shown, edge);
    AlarmIgnoresHundredths(s, later, shown);
    AlarmAfterDefinition(s, clock, seconds);
    FlagIsMatch(s, clock, seconds);
    EventsAreExact(clock, milliseconds, hundredths, seconds);
    ZeroOr(EventsDuring(clock, milliseconds, hundredths, seconds));
    RaiseReaches(s, clock, milliseconds, hundredths, seconds, v, BulkEvents(clock, hundredths, seconds), 0);
    BulkIsStepping(s, clock, milliseconds, hundredths, seconds,
                   RaisePeriodicEvents(v, BulkEvents(clock, hundredths, seconds)));
  }

  lemma FinishedJump(s: Rtc, u: Rtc, w: Rtc, shown: ClockState, edge: bool) returns (v: Rtc)
    requires SameConfig(s, u) && OnlyHundredth(s, u) && SameRest(u, w) && Shows(w, shown)
    ensures v == FinishJump(w, edge)
    ensures SameConfig(s, v) && SavesFollow(s, v, true) && StatusFollows(s, v, 0, edge)
    ensures v.alarmMatchActive == AlarmMatchesAt(s, shown)
    ensures v.millisecond == u.millisecond && Shows(v, shown)
  {
    hide CurrentAlarmMatches, Shows, SameConfig, SameRest, FinishJump, SavesFollow, Pending, AlarmMatchesAt;
    v := FinishJumpFollows(w, edge);
    RestConfig(u, w);
    RestFields(u, w);
    SameConfigChains(s, u, w);
    UntouchedConfig(w, v);
    SameConfigChains(s, w, v);
    ShowsKeeps(w, v, shown);
    AlarmShown(s, w, shown);
    SavesOfJump(s, w, v);
    SameInterrupts(s, w);
  }

  lemma AlarmAfterDefinition(s: Rtc, clock: ClockState, seconds: nat)
    requires clock.Valid()
    ensures AlarmAfter(s, clock, seconds) == AlarmMatchesAt(s, SecondsLater(clock, seconds))
  {
  }

  lemma AlarmIgnoresHundredths(s: Rtc, a: ClockState, b: ClockState)
    requires a.Valid() && b.Valid() && b == a.(hundredths := b.hundredths)
    ensures AlarmMatchesAt(s, a) == AlarmMatchesAt(s, b)
  {
    forall bit: nat | bit < 6
      ensures AlarmBitMatches(s, a, bit) == AlarmBitMatches(s, b, bit)
    {
      hide EncodeBcd, EncodeHour, AlarmByteMatches, Mode12;
    }
    hide AlarmBitMatches;
  }

  lemma SavesOfJump(s: Rtc, w: Rtc, v: Rtc)
    requires SavesFollow(w, v, true) && SameConfig(s, w)
    requires forall r: nat :: r < 32 && IsTouched(r) ==> w.registers[r] == s.registers[r]
    ensures SavesFollow(s, v, true)
  {
    SavesOfTick(s, w, v);
  }

  // The three ways through the bulk path

  lemma WithinHundredth(s: Rtc, clock: ClockState, milliseconds: nat)
    requires DecodeClock(s) == Some(clock) && milliseconds > 0 && s.millisecond + milliseconds < 10
    ensures Regular(s) ==>
              AdvanceMilliseconds(s, milliseconds)
              == RaisePeriodicEvents(s.(millisecond := s.millisecond + milliseconds), BulkEvents(clock, 0, 0))
  {
    if Regular(s) {
      DecodesIffShows(s, clock);
      hide Regular, Shows, DecodeClock, SameConfig, BulkEvents, RaisePeriodicEvents, AdvanceMilliseconds;
      var u := s.(millisecond := s.millisecond + milliseconds);
      ShowsKeeps(s, u, clock);
      UntouchedConfig(s, u);
      BulkWithinSecond(s, clock, milliseconds, 0, u);
    }
  }

  lemma WithinSecond(s: Rtc, clock: ClockState, milliseconds: nat, hundredths: nat, u: Rtc)
    requires DecodeClock(s) == Some(clock) && milliseconds > 0
    requires clock.hundredths + hundredths < 100 && u.millisecond < 10
    requires s.millisecond + milliseconds == 10 * hundredths + u.millisecond
    requires Shows(u, clock.(hundredths := clock.hundredths + hundredths)) && SameConfig(s, u) && OnlyHundredth(s, u)
    requires u.alarmMatchActive == s.alarmMatchActive
    ensures Regular(s) ==>
              RaisePeriodicEvents(u, BulkEvents(clock, hundredths, 0)) == AdvanceMilliseconds(s, milliseconds)
  {
    hide *;
    if Regular(s) {
      BulkWithinSecond(s, clock, milliseconds, hundredths, u);
    }
  }

  lemma {:induction false} LaterKeepsHundredths(clock: ClockState, value: nat, seconds: nat)
    ensures SecondsLater(clock.(hundredths := value), seconds) == SecondsLater(clock, seconds).(hundredths := value)
  {
    if seconds != 0 {
      LaterKeepsHundredths(clock, value, seconds - 1);
    }
  }

  lemma SameAlarm(s: Rtc, u: Rtc, clock: ClockState, seconds: nat)
    requires SameConfig(s, u) && clock.Valid()
    ensures AlarmAfter(s, clock, seconds) == AlarmAfter(u, clock, seconds)
  {
    SameModes(s, u);
    SameEnables(s, u);
    forall bit: nat | bit < 6
      ensures AlarmBitMatches(s, SecondsLater(clock, seconds), bit) == AlarmBitMatches(u, SecondsLater(clock, seconds), bit)
    {
      CompareByte(s, u, bit);
      hide AlarmByte, CounterMask, AlarmCounter, Mode12, SameConfig, FieldSelected;
    }
    hide AlarmBitMatches, SameConfig;
  }

  lemma SameEdge(s: Rtc, u: Rtc, clock: ClockState, seconds: nat)
    requires SameConfig(s, u) && clock.Valid() && u.alarmMatchActive == s.alarmMatchActive
    ensures AlarmEdge(s, clock, seconds) == AlarmEdge(u, clock, seconds)
    ensures EdgeMisjudged(s, clock, seconds) == EdgeMisjudged(u, clock, seconds)
  {
    SameEnables(s, u);
    SameChange(s, u, clock);
    SameChange(s, u, SecondsLater(clock, 1));
    hide AlarmAfter, AlarmEnables, SameConfig, SecondsUntilSelectedFieldChanges, SecondsLater;
    forall i: nat
      ensures AlarmAfter(s, clock, i) == AlarmAfter(u, clock, i) && FlagAfter(s, clock, i) == FlagAfter(u, clock, i)
    {
      SameAlarm(s, u, clock, i);
    }
    hide FlagAfter;
  }

  lemma SameChange(s: Rtc, u: Rtc, clock: ClockState)
    requires SameConfig(s, u) && clock.Valid()
    ensures SecondsUntilSelectedFieldChanges(s, clock) == SecondsUntilSelectedFieldChanges(u, clock)
  {
    hide FieldSelected, DaysInMonth;
    forall bit: nat | bit < 6
      ensures FieldSelected(s, bit) == FieldSelected(u, bit)
    {
      CompareByte(s, u, bit);
    }
    hide SameConfig;
  }

  /** The seconds that an interval completes. */
  function SecondsCrossed(s: Rtc, clock: ClockState, milliseconds: nat): nat {
    (clock.hundredths + (s.millisecond + milliseconds) / 10) / 100
  }

  /** The jump leaves another alarm pending bit than the steps: it was not up before, and the prediction is wrong. */
  ghost predicate AlarmBitOff(s: Rtc, milliseconds: nat) {
    && DecodeClock(s).Some? && s.registers[MAIN_STATUS] & ALARM_PENDING == 0
    && var clock := DecodeClock(s).value;
       EdgeMisjudged(s, clock, SecondsCrossed(s, clock, milliseconds))
  }

  /** It takes an alarm flag that is up without a match, which no run brings about. */
  lemma HonestAlarm(s: Rtc, milliseconds: nat)
    requires FlagHonest(s)
    ensures !AlarmBitOff(s, milliseconds)
  {
    if DecodeClock(s).Some? {
      var clock := DecodeClock(s).value;
      DecodesIffShows(s, clock);
      UntouchedConfig(s, s);
      AlarmShown(s, s, clock);
      AlarmAfterDefinition(s, clock, 0);
      assert SecondsLater(clock, 0) == clock;
      hide Shows, SameConfig, CurrentAlarmMatches, AlarmMatchesAt, DecodeClock, AlarmAfter;
    }
  }

  lemma NoSecondsNoEdge(s: Rtc, milliseconds: nat)
    requires DecodeClock(s).Some? && SecondsCrossed(s, DecodeClock(s).value, milliseconds) == 0
    ensures !AlarmBitOff(s, milliseconds)
  {
    hide DecodeClock, AlarmAfter;
  }

  /** A state with its alarm pending bit set, whatever it was. */
  function WithAlarmPending(s: Rtc): Rtc {
    Put(s, MAIN_STATUS, s.registers[MAIN_STATUS] | ALARM_PENDING)
  }

  /** The predicted edge decides the alarm pending bit and nothing else, and that only if the bit was clear. */
  lemma EdgeIsOneBit(s: Rtc, a: bool, b: bool, events: bv8)
    ensures var t, u := RaisePeriodicEvents(FinishJump(s, a), events), RaisePeriodicEvents(FinishJump(s, b), events);
            && WithAlarmPending(t) == WithAlarmPending(u)
            && (t == u <==> a == b || s.registers[MAIN_STATUS] & ALARM_PENDING != 0)
  {
    var x := FinishJump(s, false);
    FinishStatus(s);
    FinishPending(s, a);
    FinishPending(s, b);
    RaisePending(FinishJump(s, a), events);
    RaisePending(FinishJump(s, b), events);
    RaisePending(x, events);
    RaisedAlarmBit(x, events);
    PendingOrNot(RaisePeriodicEvents(x, events));
    hide RaisePeriodicEvents;
  }

  lemma FinishStatus(s: Rtc)
    ensures FinishJump(s, false).registers[MAIN_STATUS] == s.registers[MAIN_STATUS]
    ensures FinishJump(s, true) == WithAlarmPending(FinishJump(s, false))
  {
    hide TimeSaveEnabled, CurrentAlarmMatches;
    CopiesSave(s, 5);
    hide CopyTimeSaves;
  }

  lemma RaisedAlarmBit(s: Rtc, events: bv8)
    ensures RaisePeriodicEvents(s, events).registers[MAIN_STATUS] & ALARM_PENDING == s.registers[MAIN_STATUS] & ALARM_PENDING
  {
    RaiseFollows(s, events);
    AlarmBitAside(s.registers[MAIN_STATUS], events, s.alternate[INTERRUPT_CONTROL_0]);
    hide RaisePeriodicEvents, Pending;
  }

  lemma AlarmBitAside(status: bv8, events: bv8, enables: bv8)
    ensures Pending(status, events, enables, false) & ALARM_PENDING == status & ALARM_PENDING
  {
  }

  lemma PendingOrNot(s: Rtc)
    ensures WithAlarmPending(s) == s <==> s.registers[MAIN_STATUS] & ALARM_PENDING != 0
  {
    var status := s.registers[MAIN_STATUS];
    AlarmBitUp(status);
    if status | ALARM_PENDING == status {
      assert WithAlarmPending(s).registers == s.registers;
    } else {
      assert WithAlarmPending(s).registers[MAIN_STATUS] != status;
    }
  }

  lemma AlarmBitUp(status: bv8)
    ensures status & ALARM_PENDING != 0 <==> status | ALARM_PENDING == status
  {
  }

  lemma FinishPending(s: Rtc, edge: bool)
    ensures WithAlarmPending(FinishJump(s, edge)) == WithAlarmPending(FinishJump(s, false))
  {
    hide CopyTimeSaves, TimeSaveEnabled, CurrentAlarmMatches;
    var status := (if TimeSaveEnabled(s) then CopyTimeSaves(s, 5) else s).registers[MAIN_STATUS];
    assert (status | ALARM_PENDING) | ALARM_PENDING == status | ALARM_PENDING;
  }

  lemma RaisePending(s: Rtc, events: bv8)
    ensures WithAlarmPending(RaisePeriodicEvents(s, events)) == RaisePeriodicEvents(WithAlarmPending(s), events)
  {
    var status, flags := s.registers[MAIN_STATUS], s.registers[PERIODIC_FLAG];
    var enables := s.alternate[INTERRUPT_CONTROL_0];
    hide *;
    RaiseStores(s, status, flags, events, enables);
    SetPending(s, status);
    RaiseStores(WithAlarmPending(s), status | ALARM_PENDING, flags, events, enables);
    SetPending(RaisePeriodicEvents(s, events), Pending(status, events, enables, false));
    PendingSwaps(status, events, enables);
    StoresSwap(s.registers, flags | events, status | ALARM_PENDING, Pending(status, events, enables, false),
               Pending(status | ALARM_PENDING, events, enables, false));
  }

  lemma RaiseStores(s: Rtc, status: bv8, flags: bv8, events: bv8, enables: bv8)
    requires s.registers[MAIN_STATUS] == status && s.registers[PERIODIC_FLAG] == flags
    requires s.alternate[INTERRUPT_CONTROL_0] == enables
    ensures var t := RaisePeriodicEvents(s, events);
            && t == s.(registers := Stored(s.registers, flags | events, Pending(status, events, enables, false)))
            && t.registers[MAIN_STATUS] == Pending(status, events, enables, false)
  {
    RaiseFollows(s, events);
    hide RaisePeriodicEvents, Pending;
    assert RaisePeriodicEvents(s, events).registers
        == Stored(s.registers, flags | events, Pending(status, events, enables, false));
  }

  lemma SetPending(s: Rtc, status: bv8)
    requires s.registers[MAIN_STATUS] == status
    ensures var t := WithAlarmPending(s);
            && t == s.(registers := s.registers[MAIN_STATUS := status | ALARM_PENDING])
            && t.registers[MAIN_STATUS] == status | ALARM_PENDING
            && t.registers[PERIODIC_FLAG] == s.registers[PERIODIC_FLAG]
  {
  }

  function Stored(r: RegisterFile, flags: bv8, status: bv8): RegisterFile {
    r[PERIODIC_FLAG := flags][MAIN_STATUS := status]
  }

  lemma StoresSwap(r: RegisterFile, flags: bv8, a: bv8, b: bv8, c: bv8)
    ensures Stored(r, flags, b)[MAIN_STATUS := c] == Stored(r[MAIN_STATUS := a], flags, c)
  {
  }

  lemma PendingSwaps(status: bv8, events: bv8, enables: bv8)
    ensures Pending(status, events, enables, false) | ALARM_PENDING
         == Pending(status | ALARM_PENDING, events, enables, false)
  {
  }

  /** The jump is the steps, but for the alarm pending bit where the prediction of the edge is wrong. */
  lemma OverSeconds(s: Rtc, clock: ClockState, milliseconds: nat, hundredths: nat, seconds: nat, value: nat,
                    u: Rtc, moved: Rtc, edge: bool)
    requires DecodeClock(s) == Some(clock) && milliseconds > 0 && seconds > 0
    requires s.millisecond + milliseconds == 10 * hundredths + u.millisecond && u.millisecond < 10
    requires clock.hundredths + hundredths == 100 * seconds + value && value < 100
    requires SameConfig(s, u) && OnlyHundredth(s, u) && u.alarmMatchActive == s.alarmMatchActive
    requires Shows(moved, SecondsLater(clock.(hundredths := value), seconds)) && SameRest(u, moved)
    requires EdgeMisjudged(u, clock, seconds) <==> (edge <==> !AlarmEdge(u, clock, seconds))
    ensures var t := RaisePeriodicEvents(FinishJump(moved, edge), BulkEvents(clock, hundredths, seconds));
            Regular(s) ==>
              && WithAlarmPending(t) == WithAlarmPending(AdvanceMilliseconds(s, milliseconds))
              && (t == AdvanceMilliseconds(s, milliseconds) <==> !AlarmBitOff(s, milliseconds))
  {
    hide *;
    if Regular(s) {
      SameEdge(s, u, clock, seconds);
      LaterKeepsHundredths(clock, value, seconds);
      BulkOverSeconds(s, clock, milliseconds, hundredths, seconds, u, moved, AlarmEdge(s, clock, seconds));
      EdgeIsOneBit(moved, edge, AlarmEdge(s, clock, seconds), BulkEvents(clock, hundredths, seconds));
      MovedStatus(s, u, moved);
      AlarmBitIs(s, clock, milliseconds, hundredths, seconds, value, u.millisecond);
    }
  }

  lemma MovedStatus(s: Rtc, u: Rtc, moved: Rtc)
    requires OnlyHundredth(s, u) && SameRest(u, moved)
    ensures moved.registers[MAIN_STATUS] == s.registers[MAIN_STATUS]
  {
    RestConfig(u, moved);
  }

  lemma AlarmBitIs(s: Rtc, clock: ClockState, milliseconds: nat, hundredths: nat, seconds: nat, value: nat, rest: nat)
    requires DecodeClock(s) == Some(clock)
    requires s.millisecond + milliseconds == 10 * hundredths + rest && rest < 10
    requires clock.hundredths + hundredths == 100 * seconds + value && value < 100
    ensures AlarmBitOff(s, milliseconds) <==>
              s.registers[MAIN_STATUS] & ALARM_PENDING == 0 && EdgeMisjudged(s, clock, seconds)
  {
    UniqueRemainder(s.millisecond + milliseconds, hundredths, rest, 10);
    UniqueRemainder(clock.hundredths + hundredths, seconds, value, 100);
    hide DecodeClock, EdgeMisjudged;
  }

  // A forged alarm flag

  /** A running clock at midnight of a New Year with an alarm at minute one and its flag up already. */
  const FORGED: Rtc := Rtc(seq(32, i => if i == DAY_OF_MONTH || i == MONTH || i == DAY_OF_WEEK || i == SECONDS_COMPARE + 1
                                        then 0x01 else 0),
                           [0x08, 0, 0, 0x02], 0, 0, false, false, true)

  const MIDNIGHT := ClockState(0, 0, 0, 0, CalendarDate(1, 1, 0, 1, 0))

  /** The minute alarm of that clock. */
  lemma MinuteAlarm(clock: ClockState)
    requires clock.Valid()
    ensures AlarmMatchesAt(FORGED, clock) <==> EncodeBcd(clock.minutes) & 0x7f == 0x01
  {
    assert AlarmEnables(FORGED) == 0x02;
    assert forall bit: nat :: FieldSelected(FORGED, bit) <==> bit == 1;
    assert FORGED.registers[SECONDS_COMPARE + 1] == 0x01;
    hide FieldSelected, EncodeBcd, EncodeHour, AlarmEnables;
    assert AlarmBitMatches(FORGED, clock, 1) <==> EncodeBcd(clock.minutes) & 0x7f == 0x01 & 0x7f;
  }

  lemma ForgedDecodes()
    ensures DecodeClock(FORGED) == Some(MIDNIGHT) && Running(FORGED)
  {
    assert EncodeBcd(0) == 0 && EncodeBcd(1) == 1;
    assert MIDNIGHT.Valid();
    DecodesIffShows(FORGED, MIDNIGHT);
    hide EncodeBcd, DecodeClock;
  }

  lemma MinuteBytes()
    ensures EncodeBcd(0) & 0x7f == 0 && EncodeBcd(1) & 0x7f == 1
  {
  }

  lemma MinuteLater(clock: ClockState, seconds: nat)
    requires clock.Valid() && clock.SecondsOfDay() == 0 && seconds == 60
    ensures SecondsLater(clock, seconds).minutes == 1 && SecondsLater(clock, 0) == clock
  {
    NoSecondsLater(clock);
    var later := LaterToday(clock, seconds);
    hide SecondsLater;
    assert later.SecondsOfDay() == seconds;
  }

  lemma MidnightStarts()
    ensures MIDNIGHT.Valid() && MIDNIGHT.SecondsOfDay() == 0 && MIDNIGHT.minutes == 0
  {
  }

  lemma ForgedAlarm(clock: ClockState, seconds: nat)
    requires clock.Valid() && clock.SecondsOfDay() == 0 && clock.minutes == 0 && seconds == 60
    ensures !AlarmAfter(FORGED, clock, 0) && AlarmAfter(FORGED, clock, seconds)
  {
    hide *;
    MinuteBytes();
    MinuteLater(clock, seconds);
    AlarmAfterDefinition(FORGED, clock, 0);
    AlarmAfterDefinition(FORGED, clock, seconds);
    MinuteAlarm(clock);
    MinuteAlarm(SecondsLater(clock, seconds));
  }

  lemma ForgedChange()
    ensures AlarmEnables(FORGED) != 0 && SecondsUntilSelectedFieldChanges(FORGED, MIDNIGHT) == 60
  {
    assert AlarmEnables(FORGED) == 0x02;
    assert !FieldSelected(FORGED, 0) && FieldSelected(FORGED, 1);
    hide FieldSelected, AlarmEnables;
  }

  lemma ComesOnUnseen(s: Rtc, clock: ClockState, seconds: nat)
    requires clock.Valid() && s.alarmMatchActive && AlarmEnables(s) != 0
    requires !AlarmAfter(s, clock, 0) && AlarmAfter(s, clock, seconds)
    requires SecondsUntilSelectedFieldChanges(s, clock) == seconds && seconds > 1
    ensures EdgeMisjudged(s, clock, seconds)
  {
    hide AlarmAfter, AlarmEnables, SecondsUntilSelectedFieldChanges;
  }

  lemma ForgedMisjudged(clock: ClockState, seconds: nat)
    requires clock == MIDNIGHT && seconds == 60
    ensures EdgeMisjudged(FORGED, clock, seconds)
  {
    assert FORGED.alarmMatchActive;
    hide *;
    MidnightStarts();
    ForgedAlarm(clock, seconds);
    ForgedChange();
    ComesOnUnseen(FORGED, clock, seconds);
  }

  /** A minute on, the alarm comes on at the change that the prediction leaves out. */
  lemma ForgedFlagShows()
    ensures Regular(FORGED) && Running(FORGED) && AlarmBitOff(FORGED, 60_000)
  {
    ForgedDecodes();
    ForgedMisjudged(MIDNIGHT, 60);
    assert FORGED.registers[MAIN_STATUS] & ALARM_PENDING == 0;
    hide DecodeClock, Running, EdgeMisjudged;
  }
}
