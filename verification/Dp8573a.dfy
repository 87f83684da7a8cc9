/**
 The DP8573A itself: register arrays changed in place, one counter at a time.
 `Value` is the clock as a value; every method says which value it leaves.  The
 main result is `AdvanceOfflineMilliseconds`, whose bulk arithmetic leaves
 exactly what the millisecond stepper would.
 */
module Dp8573aDevice {
  import opened Options
  import opened Bcd
  import opened Calendar
  import opened ClockTime
  import opened RtcState
  import opened RtcMotion
  import opened RtcReach
  import opened RtcAlarm
  import opened RtcBulk
  import opened RtcRun
  import opened CounterView
  import opened RtcTurns
  import opened RtcStill

  /** The saved states the clock accepts, its own or not: both phases in range. */
  predicate Accepted(state: Rtc) {
    state.prescalerPhase < ATTOSECONDS_PER_MILLISECOND && state.millisecond < 10
  }

  class Dp8573a {
    const registers: array<bv8>
    const alternate: array<bv8>
    var prescalerPhase: nat
    var millisecond: nat
    var oscillatorFailed: bool
    var singleSupply: bool
    var alarmMatchActive: bool

    predicate Valid() {
      registers.Length == 32 && alternate.Length == 4 && registers != alternate
    }

    function Value(): Rtc
      requires Valid()
      reads this, registers, alternate
    {
      Rtc(registers[..], alternate[..], prescalerPhase, millisecond, oscillatorFailed, singleSupply, alarmMatchActive)
    }

    constructor ()
      ensures Valid() && fresh(registers) && fresh(alternate)
      ensures Value() == PowerOn
    {
      registers := new bv8[32](_ => 0);
      alternate := new bv8[4](_ => 0);
      prescalerPhase, millisecond := 0, 0;
      oscillatorFailed, singleSupply, alarmMatchActive := true, false, false;
    }

    // Single registers

    method Store(register: nat, value: bv8)
      requires Valid() && register < 32
      modifies registers
      ensures Value() == Put(old(Value()), register, value)
    {
      registers[register] := value;
    }

    method StoreAlternate(register: nat, value: bv8)
      requires Valid() && register < 4
      modifies alternate
      ensures Value() == old(Value()).(alternate := old(Value()).alternate[register := value])
    {
      alternate[register] := value;
    }

    method SetBcdCounter(register: nat, mask: bv8, value: nat)
      requires Valid() && register < 32 && value < 100
      modifies registers
      ensures Value() == Put(old(Value()), register, WithField(old(registers[register]), mask, value))
    {
      Store(register, (registers[register] & !mask) | (EncodeBcd(value) & mask));
    }

    method IncrementBcdRegister(register: nat, mask: bv8, minimum: nat, maximum: nat)
      returns (step: Option<(nat, bool)>)
      requires Valid() && register < 32 && minimum <= maximum < 100
      modifies registers
      ensures var spec := IncrementBcd(old(Value()), register, mask, minimum, maximum);
              if spec.Invalid? then step == None && Value() == old(Value())
              else step == Some((spec.value, spec.wrapped)) && Value() == spec.state
    {
      var raw := registers[register];
      var value := DecodeField(raw, mask, minimum, maximum);
      if value.None? {
        return None;
      }
      var wrapped := value.value == maximum;
      var next := if wrapped then minimum else value.value + 1;
      SetBcdCounter(register, mask, next);
      return Some((next, wrapped));
    }

    method RaiseEvents(events: bv8)
      requires Valid()
      modifies registers
      ensures Value() == RaisePeriodicEvents(old(Value()), events)
    {
      Store(PERIODIC_FLAG, registers[PERIODIC_FLAG] | events);
      if events & alternate[INTERRUPT_CONTROL_0] != 0 {
        Store(MAIN_STATUS, registers[MAIN_STATUS] | PERIODIC_PENDING);
      }
    }

    // Time-save and alarm

    method CopySave(destination: nat, source: nat)
      requires Valid() && destination < 32 && source < 32
      modifies registers
      ensures Value() == CopyTimeSave(old(Value()), destination, source)
    {
      var mask := CounterMask(source, Mode12(Value()));
      Store(destination, (registers[destination] & !mask) | (registers[source] & mask));
    }

    method CopyAllTimeSaveRegisters()
      requires Valid()
      modifies registers
      ensures Value() == CopyTimeSaves(old(Value()), 5)
    {
      for source := SECONDS to MONTH + 1
        invariant Value() == CopyTimeSaves(old(Value()), source - SECONDS)
      {
        CopySave(source - SECONDS + SECONDS_SAVE, source);
      }
    }

    method RecomputeAlarmMatch()
      requires Valid()
      modifies this`alarmMatchActive, registers
      ensures Value() == RecomputeAlarm(old(Value()))
    {
      var matches := CurrentAlarmMatches(Value());
      if matches && !alarmMatchActive {
        Store(MAIN_STATUS, registers[MAIN_STATUS] | ALARM_PENDING);
      }
      alarmMatchActive := matches;
    }

    method FinishChange()
      requires Valid()
      modifies this`alarmMatchActive, registers
      ensures Value() == FinishClockChange(old(Value()))
    {
      if TimeSaveEnabled(Value()) {
        CopyAllTimeSaveRegisters();
      }
      RecomputeAlarmMatch();
    }

    // The stepper

    method StepDay()
      requires Valid()
      modifies registers, alternate
      ensures Value() == AdvanceDay(old(Value()))
    {
      hide IncrementBcd, DaysInCurrentMonth;
      var maximumDay := DaysInCurrentMonth(Value());
      var day := IncrementBcdRegister(DAY_OF_MONTH, 0x3f, 1, maximumDay);
      if day.None? {
        return;
      }
      var _ := IncrementBcdRegister(DAY_OF_WEEK, 0x07, 1, 7);
      if day.value.1 {
        StepMonth();
      }
    }

    method StepMonth()
      requires Valid()
      modifies registers, alternate
      ensures Value() == AdvanceMonth(old(Value()))
    {
      hide IncrementBcd;
      var month := IncrementBcdRegister(MONTH, 0x1f, 1, 12);
      if month.None? || !month.value.1 {
        return;
      }
      var _ := IncrementBcdRegister(YEAR, 0xff, 0, 99);
      hide NextLeapPhase;
      StepLeapPhase();
    }

    method StepLeapPhase()
      requires Valid()
      modifies alternate
      ensures Value() == NextLeapPhase(old(Value()))
    {
      var mode := alternate[REAL_TIME_MODE];
      var nextLeapYear := ((mode & 0x03) + 1) & 0x03;
      StoreAlternate(REAL_TIME_MODE, (mode & !0x03) | nextLeapYear);
    }

    method Step12HourCounter()
      requires Valid()
      modifies registers, alternate
      ensures Value() == Advance12HourCounter(old(Value()))
    {
      var raw := registers[HOURS];
      var decoded := DecodeField(raw, 0x1f, 1, 12);
      assert decoded.Some? ==> 1 <= decoded.value <= 12;
      hide DecodeField, AdvanceDay;
      if decoded.None? {
        return;
      }
      var wasPm := raw & 0x80 != 0;
      var nextHour, nextPm, dayCarry := decoded.value + 1, wasPm, false;
      if decoded.value == 11 {
        nextHour, nextPm, dayCarry := 12, !wasPm, wasPm;
      } else if decoded.value == 12 {
        nextHour := 1;
      }
      hide WithHour12;
      Store(HOURS, WithHour12(raw, nextHour, nextPm));
      if dayCarry {
        StepDay();
      }
    }

    method StepHour()
      requires Valid()
      modifies registers, alternate
      ensures Value() == AdvanceHour(old(Value()))
    {
      hide IncrementBcd, Advance12HourCounter, AdvanceDay;
      if alternate[REAL_TIME_MODE] & 0x04 != 0 {
        Step12HourCounter();
      } else {
        var hour := IncrementBcdRegister(HOURS, 0x3f, 0, 23);
        if hour.Some? && hour.value.1 {
          StepDay();
        }
      }
    }

    method StepMinute()
      requires Valid()
      modifies registers, alternate
      ensures Value() == AdvanceMinute(old(Value()))
    {
      hide IncrementBcd, AdvanceHour;
      var minute := IncrementBcdRegister(MINUTES, 0x7f, 0, 59);
      if minute.Some? && minute.value.1 {
        StepHour();
      }
    }

    method StepSecond() returns (events: bv8)
      requires Valid()
      modifies this`alarmMatchActive, registers, alternate
      ensures (Value(), events) == AdvanceSecond(old(Value()))
    {
      hide IncrementBcd, AdvanceMinute, FinishClockChange;
      events := PERIODIC_SECOND;
      var second := IncrementBcdRegister(SECONDS, 0x7f, 0, 59);
      if second.Some? {
        events := events | (if second.value.0 % 10 == 0 then PERIODIC_TEN_SECONDS else 0);
        if second.value.1 {
          events := events | PERIODIC_MINUTE;
          StepMinute();
        }
      }
      FinishChange();
    }

    method StepHundredth() returns (events: bv8)
      requires Valid()
      modifies this`alarmMatchActive, registers, alternate
      ensures (Value(), events) == AdvanceHundredth(old(Value()))
    {
      hide IncrementBcd, AdvanceSecond;
      var hundredth := IncrementBcdRegister(HUNDREDTHS, 0xff, 0, 99);
      if hundredth.None? {
        return 0;
      }
      events := if hundredth.value.0 % 10 == 0 then PERIODIC_HUNDRED_MILLISECONDS else 0;
      if hundredth.value.1 {
        var more := StepSecond();
        events := events | more;
      }
    }

    /** One millisecond of the running clock. */
    method StepMillisecond()
      requires Valid()
      modifies this, registers, alternate
      ensures Value() == AdvanceMillisecond(old(Value()))
    {
      hide AdvanceHundredth, RaisePeriodicEvents;
      var events := PERIODIC_MILLISECOND;
      millisecond := millisecond + 1;
      if millisecond == 10 {
        millisecond := 0;
        var more := StepHundredth();
        events := events | PERIODIC_TEN_MILLISECONDS | more;
      }
      RaiseEvents(events);
    }

    /** Guest virtual time: whole milliseconds are stepped, the rest is carried. */
    method Elapse(elapsed: nat)
      requires Valid()
      modifies this, registers, alternate
      ensures Value() == AdvanceTime(old(Value()), elapsed)
    {
      if !Running(Value()) {
        return;
      }
      var phase := prescalerPhase + elapsed % ATTOSECONDS_PER_MILLISECOND;
      var milliseconds := elapsed / ATTOSECONDS_PER_MILLISECOND + phase / ATTOSECONDS_PER_MILLISECOND;
      prescalerPhase := phase % ATTOSECONDS_PER_MILLISECOND;
      ghost var start := Value();
      hide AdvanceMillisecond;
      for i := 0 to milliseconds
        invariant Value() == AdvanceMilliseconds(start, i)
      {
        StepMillisecond();
      }
    }

    // The bulk path

    method StoreTime(hour: nat, minute: nat, second: nat)
      requires Valid() && hour < 24 && minute < 60 && second < 60
      modifies registers
      ensures Value() == SetTime(old(Value()), hour, minute, second)
    {
      hide EncodeBcd;
      SetBcdCounter(SECONDS, 0x7f, second);
      SetBcdCounter(MINUTES, 0x7f, minute);
      if alternate[REAL_TIME_MODE] & 0x04 != 0 {
        hide WithHour12, WithField;
        var hour12 := if hour == 0 then 12 else if hour <= 12 then hour else hour - 12;
        Store(HOURS, WithHour12(registers[HOURS], hour12, hour >= 12));
      } else {
        SetBcdCounter(HOURS, 0x3f, hour);
      }
    }

    /** Sets the time of day and counts the days, modulo the calendar cycle. */
    method AdvanceClockSeconds(clock: ClockState, seconds: nat, ghost shown: ClockState)
      requires Valid() && Shows(Value(), shown) && shown == clock.(hundredths := shown.hundredths)
      modifies registers, alternate
      ensures Shows(Value(), SecondsLater(shown, seconds)) && SameRest(old(Value()), Value())
    {
      ghost var start := Value();
      var total := clock.SecondsOfDay() + seconds;
      var days, rest := total / SECONDS_PER_DAY, total % SECONDS_PER_DAY;
      var hour, minute, second := rest / 3600, rest / 60 % 60, rest % 60;
      var cycle := CALENDAR_CYCLE_DAYS;
      ghost var target := JumpMoves(start, shown, seconds, days, rest, cycle);
      hide Shows, SecondsLater, SameRest, SetTime, AdvanceDay;
      StoreTime(hour, minute, second);
      ghost var timed := Value();
      for i := 0 to days % cycle
        invariant Value() == AdvanceDays(timed, i)
      {
        StepDay();
      }
    }

    /** The copies once, the predicted edge, and the final match. */
    method FinishJumpWith(edge: bool)
      requires Valid()
      modifies this`alarmMatchActive, registers
      ensures Value() == FinishJump(old(Value()), edge)
    {
      hide TimeSaveEnabled, CurrentAlarmMatches, CopyTimeSaves;
      if TimeSaveEnabled(Value()) {
        CopyAllTimeSaveRegisters();
      }
      var alarmMatches := CurrentAlarmMatches(Value());
      if edge {
        Store(MAIN_STATUS, registers[MAIN_STATUS] | ALARM_PENDING);
      }
      alarmMatchActive := alarmMatches;
    }

    /** The part of the bulk path that crosses seconds. */
    method JumpSeconds(clock: ClockState, seconds: nat, ghost shown: ClockState)
      returns (ghost moved: Rtc, ghost edge: bool)
      requires Valid() && Shows(Value(), shown) && clock.Valid() && shown == clock.(hundredths := shown.hundredths)
      modifies this`alarmMatchActive, registers, alternate
      ensures Shows(moved, SecondsLater(shown, seconds)) && SameRest(old(Value()), moved)
      ensures Value() == FinishJump(moved, edge)
      ensures EdgeMisjudged(old(Value()), clock, seconds) <==> (edge <==> !AlarmEdge(old(Value()), clock, seconds))
    {
      hide Shows, SecondsLater, SameRest, AlarmAfter, AlarmEdge, EdgeMisjudged, EdgePredicted, FinishJump;
      var alarmEdge := AlarmEdgeDuring(Value(), clock, seconds);
      AdvanceClockSeconds(clock, seconds, shown);
      moved, edge := Value(), alarmEdge;
      FinishJumpWith(alarmEdge);
    }

    /** Time spent switched off, in one go. */
    method AdvanceOfflineMilliseconds(milliseconds: nat)
      requires Valid()
      modifies this, registers, alternate
      ensures milliseconds == 0 || !Running(old(Value())) || !ViewOf(old(Value())).AllHold() ==>
                Value() == old(Value())
      ensures Running(old(Value())) && Regular(old(Value())) ==>
                && WithAlarmPending(Value()) == WithAlarmPending(AdvanceMilliseconds(old(Value()), milliseconds))
                && (Value() == AdvanceMilliseconds(old(Value()), milliseconds)
                    <==> !AlarmBitOff(old(Value()), milliseconds))
      ensures milliseconds > 0 && Running(old(Value())) && RunInvariant(old(Value())) ==>
                (Value() == AdvanceMilliseconds(old(Value()), milliseconds)
                 <==> ViewOf(old(Value())).AllHold() || StandsStill(old(Value()), milliseconds))
    {
      hide Running, DecodeClock, AdvanceMillisecond, Shows, SecondsLater, SameConfig, OnlyHundredth, SameRest, FinishJump,
        AlarmAfter, AlarmEdge, EdgeMisjudged, BulkEvents, RaisePeriodicEvents, CurrentAlarmMatches, WithField, SavesInSync,
        StandsStill, WithAlarmPending, ViewOf, ClockView.AllHold, AlarmBitOff, FlagHonest;
      ghost var s := Value();
      DecodesIfAllHold(s);
      HonestState(s, milliseconds);
      if milliseconds == 0 || !Running(Value()) {
        NothingCrossed(s, milliseconds);
        return;
      }
      var decoded := DecodeClock(Value());
      if decoded.None? {
        if RunInvariant(s) {
          StepsChangeNothing(s, milliseconds);
        }
        return;
      }
      var clock := decoded.value;
      DecodesIffShows(s, clock);
      var total := millisecond + milliseconds;
      var hundredthSteps := total / 10;
      var totalHundredths := clock.hundredths + hundredthSteps;
      var secondSteps := totalHundredths / 100;
      var value := totalHundredths % 100;
      millisecond := total % 10;
      if hundredthSteps == 0 {
        WithinHundredth(s, clock, milliseconds);
        NoSecondsNoEdge(s, milliseconds);
      } else {
        ghost var u := SetHundredthsMoves(s, clock, millisecond, value);
        SetBcdCounter(HUNDREDTHS, 0xff, value);
        if secondSteps == 0 {
          WithinSecond(s, clock, milliseconds, hundredthSteps, u);
          NoSecondsNoEdge(s, milliseconds);
        } else {
          ghost var moved, edge := JumpSeconds(clock, secondSteps, clock.(hundredths := value));
          OverSeconds(s, clock, milliseconds, hundredthSteps, secondSteps, value, u, moved, edge);
        }
      }
      RaiseEvents(BulkEvents(clock, hundredthSteps, secondSteps));
    }

    /** Restores retained state, then lets the time spent switched off pass. */
    method RestoreBatteryState(state: Rtc, offlineMilliseconds: nat)
      requires Valid() && Accepted(state)
      modifies this, registers, alternate
      ensures Value() == AfterOffline(state, offlineMilliseconds)
              <==> !(Running(state) && AlarmBitOff(state, offlineMilliseconds))
      ensures FlagHonest(state) ==> Value() == AfterOffline(state, offlineMilliseconds)
      ensures WithAlarmPending(Value()) == WithAlarmPending(AfterOffline(state, offlineMilliseconds))
    {
      forall i | 0 <= i < 32 {
        registers[i] := state.registers[i];
      }
      forall i | 0 <= i < 4 {
        alternate[i] := state.alternate[i];
      }
      prescalerPhase, millisecond := state.prescalerPhase, state.millisecond;
      oscillatorFailed, singleSupply := state.oscillatorFailed, state.singleSupply;
      alarmMatchActive := state.alarmMatchActive;
      assert registers[..] == state.registers && alternate[..] == state.alternate;
      hide Running, DecodeClock, CurrentAlarmMatches, AdvanceMilliseconds, SavesInSync, WithAlarmPending, StandsStill,
        AlarmBitOff, ViewOf, ClockView.AllHold, FlagHonest;
      DecodesIfAllHold(state);
      HonestState(state, offlineMilliseconds);
      DecodedBit(state, offlineMilliseconds);
      AdvanceOfflineMilliseconds(offlineMilliseconds);
      if offlineMilliseconds == 0 {
        NoMilliseconds(state);
      }
    }

    // Register access

    method ReadRegister(register: nat) returns (value: bv8)
      requires Valid() && register < 32
      modifies registers
      ensures value == ReadValue(old(Value()), register)
      ensures Value() == AfterRead(old(Value()), register)
    {
      value := ReadValue(Value(), register);
      hide ReadValue;
      if register == PERIODIC_FLAG && !AlternateBank(Value()) {
        Store(PERIODIC_FLAG, registers[PERIODIC_FLAG] & !0x3f);
      }
    }

    method WriteMainStatusRegister(value: bv8)
      requires Valid()
      modifies registers
      ensures Value() == WriteMainStatus(old(Value()), value)
    {
      var pending := registers[MAIN_STATUS] & 0x0c & !(value & 0x0c);
      Store(MAIN_STATUS, (value & 0xf0) | pending);
    }

    method WriteMode(value: bv8)
      requires Valid()
      modifies this, registers, alternate
      ensures Value() == WriteRealTimeMode(old(Value()), value)
    {
      hide FinishClockChange;
      var wasRunning := Running(Value());
      var isRunning := value & 0x08 != 0;
      StoreAlternate(REAL_TIME_MODE, value);
      if wasRunning && !isRunning {
        prescalerPhase, millisecond := 0, 0;
      }
      if isRunning {
        oscillatorFailed := false;
      }
      FinishChange();
    }

    method WriteAlternateRegister(register: nat, value: bv8)
      requires Valid() && register < 4
      modifies this, registers, alternate
      ensures Value() == WriteAlternateControl(old(Value()), register, value)
    {
      hide WriteRealTimeMode, RecomputeAlarm;
      if register == REAL_TIME_MODE {
        WriteMode(value);
      } else {
        StoreAlternate(register, value);
        if register == INTERRUPT_CONTROL_1 {
          RecomputeAlarmMatch();
        }
      }
    }

    method WriteSaveControl(value: bv8)
      requires Valid()
      modifies registers
      ensures Value() == WriteTimeSaveControl(old(Value()), value)
    {
      hide CopyTimeSaves;
      var wasEnabled := TimeSaveEnabled(Value());
      Store(TIME_SAVE_CONTROL, value);
      if wasEnabled || TimeSaveEnabled(Value()) {
        CopyAllTimeSaveRegisters();
      }
    }

    method WriteCounterRegister(register: nat, value: bv8)
      requires Valid() && (HUNDREDTHS <= register <= YEAR || register == DAY_OF_WEEK)
      modifies this, registers
      ensures Value() == WriteCounter(old(Value()), register, value)
    {
      hide CopyTimeSave, RecomputeAlarm;
      Store(register, value);
      if TimeSaveEnabled(Value()) && SECONDS <= register <= MONTH {
        CopySave(register - SECONDS + SECONDS_SAVE, register);
      }
      if SECONDS <= register <= MONTH || register == DAY_OF_WEEK {
        RecomputeAlarmMatch();
      }
    }

    method WriteSaveRegister(register: nat, value: bv8)
      requires Valid() && SECONDS_SAVE <= register <= MONTH_SAVE
      modifies registers
      ensures Value() == WriteSave(old(Value()), register, value)
    {
      hide CopyTimeSave;
      Store(register, value);
      if TimeSaveEnabled(Value()) {
        CopySave(register, register - SECONDS_SAVE + SECONDS);
      }
    }

    method WriteRegister(register: nat, value: bv8)
      requires Valid() && register < 32
      modifies this, registers, alternate
      ensures Value() == RtcRun.WriteRegister(old(Value()), register, value)
    {
      hide WriteMainStatus, WriteAlternateControl, WriteTimeSaveControl, WriteCounter, WriteSave, RecomputeAlarm,
        AlternateBank;
      if register == MAIN_STATUS {
        WriteMainStatusRegister(value);
      } else if 1 <= register <= 4 && AlternateBank(Value()) {
        WriteAlternateRegister(register - 1, value);
      } else if register == 1 || register == 2 {
      } else if register == PERIODIC_FLAG {
        singleSupply := value & 0x40 != 0;
        Store(PERIODIC_FLAG, (registers[PERIODIC_FLAG] & 0x3f) | (value & 0x80));
      } else if register == TIME_SAVE_CONTROL {
        WriteSaveControl(value);
      } else if HUNDREDTHS <= register <= YEAR || register == DAY_OF_WEEK {
        WriteCounterRegister(register, value);
      } else if register == 0x0d {
        Store(register, value & 0x03);
      } else if 0x0f <= register <= 0x12 {
      } else if SECONDS_COMPARE <= register <= DAY_OF_WEEK_COMPARE {
        Store(register, value);
        RecomputeAlarmMatch();
      } else if SECONDS_SAVE <= register <= MONTH_SAVE {
        WriteSaveRegister(register, value);
      } else if register == PAGE_ONE_RAM && !AlternateBank(Value()) {
      } else {
        Store(register, value);
      }
    }
  }

  /** A state of a run, or any with an honest flag, has its alarm pending bit right. */
  lemma HonestState(s: Rtc, milliseconds: nat)
    ensures FlagHonest(s) ==> !AlarmBitOff(s, milliseconds)
    ensures RunInvariant(s) ==> s.millisecond < 10 && !AlarmBitOff(s, milliseconds)
  {
    if FlagHonest(s) {
      HonestAlarm(s, milliseconds);
    }
    hide AlarmBitOff, CurrentAlarmMatches, SavesInSync;
  }

  lemma DecodedBit(s: Rtc, milliseconds: nat)
    ensures AlarmBitOff(s, milliseconds) ==> DecodeClock(s).Some?
  {
    hide DecodeClock, EdgeMisjudged;
  }

  lemma NothingCrossed(s: Rtc, milliseconds: nat)
    ensures milliseconds == 0 && Regular(s) ==> !AlarmBitOff(s, milliseconds)
  {
    if milliseconds == 0 && Regular(s) {
      NoSecondsNoEdge(s, milliseconds);
    }
  }

  lemma NoMilliseconds(s: Rtc)
    ensures AdvanceMilliseconds(s, 0) == s
  {
  }
}
