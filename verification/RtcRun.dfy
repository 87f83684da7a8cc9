/**
 Whole runs of the DP8573A: guest register reads and writes, the passing of
 time and battery restores, in any order.
 */
module RtcRun {
  import opened Options
  import opened Bcd
  import opened Calendar
  import opened ClockTime
  import opened RtcState
  import opened RtcMotion
  import opened RtcReach

  const ATTOSECONDS_PER_MILLISECOND := 1_000_000_000_000_000

  const PAGE_ONE_RAM := 0x1e

  predicate AlternateBank(s: Rtc) {
    s.registers[MAIN_STATUS] & 0x40 != 0
  }

  // Register access

  predicate InterruptAsserted(s: Rtc) {
    || s.registers[MAIN_STATUS] & PERIODIC_PENDING != 0
    || (s.registers[MAIN_STATUS] & ALARM_PENDING != 0 && s.alternate[INTERRUPT_CONTROL_1] & 0x40 != 0)
  }

  function ReadValue(s: Rtc, register: nat): bv8
    requires register < 32
  {
    if register == MAIN_STATUS then (s.registers[MAIN_STATUS] & 0xfc) | Flag(InterruptAsserted(s), 0x01)
    else if 1 <= register <= 4 && AlternateBank(s) then s.alternate[register - 1]
    else if register == 1 || register == 2 then 0
    else if register == PERIODIC_FLAG then (s.registers[PERIODIC_FLAG] & !0x40) | Flag(s.oscillatorFailed, 0x40)
    else if 0x0f <= register <= 0x12 then 0
    else if register == PAGE_ONE_RAM && !AlternateBank(s) then 0
    else s.registers[register]
  }

  function ClearPeriodicFlags(s: Rtc): Rtc {
    Put(s, PERIODIC_FLAG, s.registers[PERIODIC_FLAG] & !0x3f)
  }

  /** The state after a read: the periodic flags are cleared by reading them. */
  function AfterRead(s: Rtc, register: nat): Rtc {
    if register == PERIODIC_FLAG && !AlternateBank(s) then ClearPeriodicFlags(s) else s
  }

  function WriteMainStatus(s: Rtc, value: bv8): Rtc {
    var pending := s.registers[MAIN_STATUS] & 0x0c & !(value & 0x0c);
    Put(s, MAIN_STATUS, (value & 0xf0) | pending)
  }

  function WriteRealTimeMode(s: Rtc, value: bv8): Rtc {
    var isRunning := value & 0x08 != 0;
    var stops := Running(s) && !isRunning;
    var s1 := s.(alternate := s.alternate[REAL_TIME_MODE := value],
                 prescalerPhase := if stops then 0 else s.prescalerPhase,
                 millisecond := if stops then 0 else s.millisecond,
                 oscillatorFailed := s.oscillatorFailed && !isRunning);
    FinishClockChange(s1)
  }

  function WriteAlternateControl(s: Rtc, register: nat, value: bv8): Rtc
    requires register < 4
  {
    if register == REAL_TIME_MODE then WriteRealTimeMode(s, value)
    else
      var s1 := s.(alternate := s.alternate[register := value]);
      if register == INTERRUPT_CONTROL_1 then RecomputeAlarm(s1) else s1
  }

  function WriteTimeSaveControl(s: Rtc, value: bv8): Rtc {
    var s1 := Put(s, TIME_SAVE_CONTROL, value);
    if TimeSaveEnabled(s) || TimeSaveEnabled(s1) then CopyTimeSaves(s1, 5) else s1
  }

  function WriteCounter(s: Rtc, register: nat, value: bv8): Rtc
    requires HUNDREDTHS <= register <= YEAR || register == DAY_OF_WEEK
  {
    var s1 := Put(s, register, value);
    var s2 := if TimeSaveEnabled(s1) && SECONDS <= register <= MONTH
              then CopyTimeSave(s1, register - SECONDS + SECONDS_SAVE, register) else s1;
    if SECONDS <= register <= MONTH || register == DAY_OF_WEEK then RecomputeAlarm(s2) else s2
  }

  function WriteSave(s: Rtc, register: nat, value: bv8): Rtc
    requires SECONDS_SAVE <= register <= MONTH_SAVE
  {
    var s1 := Put(s, register, value);
    if TimeSaveEnabled(s1) then CopyTimeSave(s1, register, register - SECONDS_SAVE + SECONDS) else s1
  }

  function WritePeriodicFlag(s: Rtc, value: bv8): Rtc {
    Put(s.(singleSupply := value & 0x40 != 0), PERIODIC_FLAG,
        (s.registers[PERIODIC_FLAG] & 0x3f) | (value & 0x80))
  }

  function WriteRegister(s: Rtc, register: nat, value: bv8): Rtc
    requires register < 32
  {
    if register == MAIN_STATUS then WriteMainStatus(s, value)
    else if 1 <= register <= 4 && AlternateBank(s) then WriteAlternateControl(s, register - 1, value)
    else if register == 1 || register == 2 then s
    else if register == PERIODIC_FLAG then WritePeriodicFlag(s, value)
    else if register == TIME_SAVE_CONTROL then WriteTimeSaveControl(s, value)
    else if HUNDREDTHS <= register <= YEAR || register == DAY_OF_WEEK then WriteCounter(s, register, value)
    else if register == 0x0d then Put(s, register, value & 0x03)
    else if 0x0f <= register <= 0x12 then s
    else if SECONDS_COMPARE <= register <= DAY_OF_WEEK_COMPARE then RecomputeAlarm(Put(s, register, value))
    else if SECONDS_SAVE <= register <= MONTH_SAVE then WriteSave(s, register, value)
    else if register == PAGE_ONE_RAM && !AlternateBank(s) then s
    else Put(s, register, value)
  }

  // Time

  function AdvanceTime(s: Rtc, elapsed: nat): Rtc {
    if !Running(s) then s
    else
      var phase := s.prescalerPhase + elapsed % ATTOSECONDS_PER_MILLISECOND;
      var milliseconds := elapsed / ATTOSECONDS_PER_MILLISECOND + phase / ATTOSECONDS_PER_MILLISECOND;
      AdvanceMilliseconds(s.(prescalerPhase := phase % ATTOSECONDS_PER_MILLISECOND), milliseconds)
  }

  /** A restore of a state the clock saved itself; a clock that cannot be decoded stays as it is. */
  function AfterOffline(s: Rtc, milliseconds: nat): Rtc {
    if Running(s) && DecodeClock(s).Some? then AdvanceMilliseconds(s, milliseconds) else s
  }

  // Runs

  datatype Operation =
    | Read(register: nat)
    | Write(register: nat, value: bv8)
    | Advance(elapsed: nat)
    /** The state saved after that many operations, or the present one, is restored. */
    | Restore(savedAfter: nat, offlineMilliseconds: nat)

  /** One operation, given the state that a restore would find saved. */
  function Apply(s: Rtc, saved: Rtc, operation: Operation): Rtc {
    match operation
    case Read(register) => AfterRead(s, register)
    case Write(register, value) => if register < 32 then WriteRegister(s, register, value) else s
    case Advance(elapsed) => AdvanceTime(s, elapsed)
    case Restore(_, milliseconds) => AfterOffline(saved, milliseconds)
  }

  /** The operations up to the save that an operation refers to. */
  function UpToSave(before: seq<Operation>, operation: Operation): (prefix: seq<Operation>)
    ensures |prefix| <= |before|
  {
    if operation.Restore? && operation.savedAfter < |before| then before[..operation.savedAfter] else before
  }

  function Run(s: Rtc, operations: seq<Operation>): Rtc
    decreases |operations|
  {
    if operations == [] then s
    else
      var before, last := operations[..|operations| - 1], operations[|operations| - 1];
      Apply(Run(s, before), Run(s, UpToSave(before, last)), last)
  }

  const PowerOn: Rtc := Rtc(seq(32, _ => 0), seq(4, _ => 0), 0, 0, true, false, false)

  // The run invariant

  predicate AlarmInSync(s: Rtc) {
    s.alarmMatchActive == CurrentAlarmMatches(s)
  }

  /** A save register holds its counter on the counter's mask. */
  predicate SaveInSync(s: Rtc, save: nat)
    requires SECONDS_SAVE <= save <= MONTH_SAVE
  {
    var source := save - SECONDS_SAVE + SECONDS;
    SameUnder(s.registers[save], s.registers[source], CounterMask(source, Mode12(s)))
  }

  predicate SavesInSync(s: Rtc) {
    TimeSaveEnabled(s) ==> forall save: nat :: SECONDS_SAVE <= save <= MONTH_SAVE ==> SaveInSync(s, save)
  }

  predicate RunInvariant(s: Rtc) {
    && s.prescalerPhase < ATTOSECONDS_PER_MILLISECOND
    && s.millisecond < 10
    && AlarmInSync(s)
    && SavesInSync(s)
  }

  lemma RecomputeKeeps(s: Rtc)
    requires s.prescalerPhase < ATTOSECONDS_PER_MILLISECOND && s.millisecond < 10 && SavesInSync(s)
    ensures RunInvariant(RecomputeAlarm(s))
  {
    var t := RecomputeAlarm(s);
    SameButStatus(s, t);
  }

  /** Status bits and flags play no part in the alarm or the copies. */
  lemma SameButStatus(s: Rtc, t: Rtc)
    requires t.alternate == s.alternate
    requires forall r: nat :: r < 32 && r != MAIN_STATUS && r != PERIODIC_FLAG ==> t.registers[r] == s.registers[r]
    ensures CurrentAlarmMatches(t) == CurrentAlarmMatches(s)
    ensures SavesInSync(t) == SavesInSync(s) && TimeSaveEnabled(t) == TimeSaveEnabled(s)
  {
    hide CounterMask, AlarmBit, SameUnder;
    assert forall bit: nat :: bit < 6 ==> AlarmFieldMatches(t, bit) == AlarmFieldMatches(s, bit);
    assert forall save: nat :: SECONDS_SAVE <= save <= MONTH_SAVE ==> SaveInSync(t, save) == SaveInSync(s, save);
  }

  lemma SavedInSync(s: Rtc, save: nat, value: bv8)
    requires SECONDS_SAVE <= save <= MONTH_SAVE
    requires value == SavedByte(s, s, save)
    ensures SameUnder(value, s.registers[save - SECONDS_SAVE + SECONDS],
                      CounterMask(save - SECONDS_SAVE + SECONDS, Mode12(s)))
  {
    var source := save - SECONDS_SAVE + SECONDS;
    var mask := CounterMask(source, Mode12(s));
    MaskedWrite(s.registers[save], mask, s.registers[source]);
  }

  lemma CopySyncs(s: Rtc)
    ensures SavesInSync(CopyTimeSaves(s, 5))
    ensures var t := CopyTimeSaves(s, 5);
            && t == s.(registers := t.registers)
            && forall r: nat :: r < 32 && !(SECONDS_SAVE <= r <= MONTH_SAVE) ==> t.registers[r] == s.registers[r]
  {
    CopiesSave(s, 5);
    var t := CopyTimeSaves(s, 5);
    forall save: nat | SECONDS_SAVE <= save <= MONTH_SAVE
      ensures SaveInSync(t, save)
    {
      SavedInSync(s, save, t.registers[save]);
    }
  }

  /** Finishing a clock change brings the copies and the alarm back into step. */
  lemma FinishKeeps(s: Rtc)
    requires s.prescalerPhase < ATTOSECONDS_PER_MILLISECOND && s.millisecond < 10
    ensures RunInvariant(FinishClockChange(s))
  {
    hide CopyTimeSaves, SaveInSync, RecomputeAlarm, RunInvariant;
    CopySyncs(s);
    RecomputeKeeps(if TimeSaveEnabled(s) then CopyTimeSaves(s, 5) else s);
  }

  /** A change of registers and control only. */
  predicate KeepsPhase(s: Rtc, t: Rtc) {
    t == s.(registers := t.registers, alternate := t.alternate)
  }

  lemma DayKeepsPhase(s: Rtc)
    ensures KeepsPhase(s, AdvanceDay(s))
  {
    hide DecodeField, WithField, DaysInCurrentMonth;
  }

  lemma MinuteKeepsPhase(s: Rtc)
    ensures KeepsPhase(s, AdvanceMinute(s))
  {
    hide DecodeField, WithField, WithHour12, AdvanceDay, Mode12;
    forall t: Rtc | KeepsPhase(s, t)
      ensures KeepsPhase(s, AdvanceDay(t))
    {
      DayKeepsPhase(t);
    }
  }

  lemma SecondKeeps(s: Rtc)
    requires s.prescalerPhase < ATTOSECONDS_PER_MILLISECOND && s.millisecond < 10
    ensures RunInvariant(AdvanceSecond(s).0)
  {
    hide DecodeField, WithField, AdvanceMinute, FinishClockChange, RunInvariant;
    var second := IncrementBcd(s, SECONDS, 0x7f, 0, 59);
    if second.Invalid? {
      FinishKeeps(s);
    } else {
      MinuteKeepsPhase(second.state);
      FinishKeeps(if second.wrapped then AdvanceMinute(second.state) else second.state);
    }
  }

  /** Neither the alarm nor the copies look at the hundredths or the year. */
  lemma UnwatchedCounter(s: Rtc, t: Rtc)
    requires t.alternate == s.alternate
    requires forall r: nat :: r < 32 && r != HUNDREDTHS && r != YEAR ==> t.registers[r] == s.registers[r]
    ensures CurrentAlarmMatches(t) == CurrentAlarmMatches(s)
    ensures SavesInSync(t) == SavesInSync(s)
  {
    hide CounterMask, AlarmBit, SameUnder;
    assert forall bit: nat :: bit < 6 ==> AlarmFieldMatches(t, bit) == AlarmFieldMatches(s, bit);
    assert forall save: nat :: SECONDS_SAVE <= save <= MONTH_SAVE ==> SaveInSync(t, save) == SaveInSync(s, save);
  }

  lemma RaiseKeeps(s: Rtc, events: bv8)
    requires RunInvariant(s)
    ensures RunInvariant(RaisePeriodicEvents(s, events))
  {
    hide CurrentAlarmMatches, SavesInSync;
    SameButStatus(s, RaisePeriodicEvents(s, events));
  }

  lemma HundredthKeeps(s: Rtc)
    requires RunInvariant(s)
    ensures RunInvariant(AdvanceHundredth(s).0)
  {
    hide DecodeField, WithField, AdvanceSecond, CurrentAlarmMatches, SavesInSync;
    var hundredth := IncrementBcd(s, HUNDREDTHS, 0xff, 0, 99);
    if hundredth.Incremented? {
      UnwatchedCounter(s, hundredth.state);
      if hundredth.wrapped {
        SecondKeeps(hundredth.state);
      }
    }
  }

  lemma MillisecondKeeps(s: Rtc)
    requires RunInvariant(s)
    ensures RunInvariant(AdvanceMillisecond(s))
  {
    hide AdvanceHundredth, RaisePeriodicEvents, CurrentAlarmMatches, SavesInSync;
    if s.millisecond == 9 {
      var s0 := s.(millisecond := 0);
      SameButStatus(s, s0);
      HundredthKeeps(s0);
      RaiseKeeps(AdvanceHundredth(s0).0, PERIODIC_MILLISECOND | PERIODIC_TEN_MILLISECONDS | AdvanceHundredth(s0).1);
    } else {
      var s1 := s.(millisecond := s.millisecond + 1);
      SameButStatus(s, s1);
      RaiseKeeps(s1, PERIODIC_MILLISECOND);
    }
  }

  lemma {:induction false} MillisecondsKeep(s: Rtc, milliseconds: nat)
    requires RunInvariant(s)
    ensures RunInvariant(AdvanceMilliseconds(s, milliseconds))
  {
    hide RunInvariant, AdvanceMillisecond;
    if milliseconds != 0 {
      MillisecondsKeep(s, milliseconds - 1);
      MillisecondKeeps(AdvanceMilliseconds(s, milliseconds - 1));
    }
  }

  lemma TimeKeeps(s: Rtc, elapsed: nat)
    requires RunInvariant(s)
    ensures RunInvariant(AdvanceTime(s, elapsed))
  {
    hide CurrentAlarmMatches, SavesInSync, AdvanceMilliseconds, Running;
    var phase := s.prescalerPhase + elapsed % ATTOSECONDS_PER_MILLISECOND;
    var s1 := s.(prescalerPhase := phase % ATTOSECONDS_PER_MILLISECOND);
    var milliseconds := elapsed / ATTOSECONDS_PER_MILLISECOND + phase / ATTOSECONDS_PER_MILLISECOND;
    SameButStatus(s, s1);
    MillisecondsKeep(s1, milliseconds);
  }

  // Writes

  lemma CopyOneSyncs(s: Rtc, save: nat, value: bv8)
    requires SECONDS_SAVE <= save <= MONTH_SAVE
    requires forall other: nat :: SECONDS_SAVE <= other <= MONTH_SAVE && other != save ==> SaveInSync(s, other)
    ensures var t := CopyTimeSave(s, save, save - SECONDS_SAVE + SECONDS);
            forall other: nat :: SECONDS_SAVE <= other <= MONTH_SAVE ==> SaveInSync(t, other)
    ensures CurrentAlarmMatches(CopyTimeSave(s, save, save - SECONDS_SAVE + SECONDS)) == CurrentAlarmMatches(s)
  {
    var source := save - SECONDS_SAVE + SECONDS;
    var t := CopyTimeSave(s, save, source);
    SavedInSync(s, save, t.registers[save]);
    CopyKeepsAlarm(s, t);
    hide CounterMask, SameUnder;
    forall other: nat | SECONDS_SAVE <= other <= MONTH_SAVE
      ensures SaveInSync(t, other)
    {
      if other != save {
        assert SaveInSync(s, other);
      }
    }
  }

  lemma WriteSaveKeeps(s: Rtc, register: nat, value: bv8)
    requires RunInvariant(s) && SECONDS_SAVE <= register <= MONTH_SAVE
    ensures RunInvariant(WriteSave(s, register, value))
  {
    var s1 := Put(s, register, value);
    CopyKeepsAlarm(s, s1);
    hide CounterMask, SameUnder, CurrentAlarmMatches, CopyTimeSave;
    if TimeSaveEnabled(s1) {
      forall other: nat | SECONDS_SAVE <= other <= MONTH_SAVE && other != register
        ensures SaveInSync(s1, other)
      {
        assert SaveInSync(s, other);
      }
      CopyOneSyncs(s1, register, value);
      CopyFields(s1, register, register - SECONDS_SAVE + SECONDS);
    }
  }

  lemma CopyFields(s: Rtc, destination: nat, source: nat)
    requires destination < 32 && source < 32
    ensures var t := CopyTimeSave(s, destination, source);
            && t == s.(registers := t.registers)
            && forall r: nat :: r < 32 && r != destination ==> t.registers[r] == s.registers[r]
  {
  }

  lemma WriteCounterKeeps(s: Rtc, register: nat, value: bv8)
    requires RunInvariant(s) && (HUNDREDTHS <= register <= YEAR || register == DAY_OF_WEEK)
    ensures RunInvariant(WriteCounter(s, register, value))
  {
    var s1 := Put(s, register, value);
    hide CounterMask, SameUnder, CurrentAlarmMatches, CopyTimeSave, RecomputeAlarm;
    if register == HUNDREDTHS || register == YEAR {
      UnwatchedCounter(s, s1);
    } else {
      WatchedCounter(s, register, value);
    }
  }

  /** Writing a counter leaves the other copies in step. */
  lemma OtherSaves(s: Rtc, register: nat, value: bv8)
    requires RunInvariant(s) && (SECONDS <= register <= MONTH || register == DAY_OF_WEEK)
    ensures TimeSaveEnabled(Put(s, register, value)) ==>
              forall other: nat ::
                SECONDS_SAVE <= other <= MONTH_SAVE && other != register - SECONDS + SECONDS_SAVE ==>
                  SaveInSync(Put(s, register, value), other)
  {
    hide CounterMask, SameUnder, CurrentAlarmMatches;
    forall other: nat | TimeSaveEnabled(s) && SECONDS_SAVE <= other <= MONTH_SAVE && other != register - SECONDS + SECONDS_SAVE
      ensures SaveInSync(Put(s, register, value), other)
    {
      assert SaveInSync(s, other);
    }
  }

  /** A counter that the alarm compares and that may have a copy. */
  lemma WatchedCounter(s: Rtc, register: nat, value: bv8)
    requires RunInvariant(s) && (SECONDS <= register <= MONTH || register == DAY_OF_WEEK)
    ensures RunInvariant(WriteCounter(s, register, value))
  {
    var s1 := Put(s, register, value);
    OtherSaves(s, register, value);
    hide CounterMask, SameUnder, CurrentAlarmMatches, CopyTimeSave, RecomputeAlarm, SaveInSync;
    if register != DAY_OF_WEEK && TimeSaveEnabled(s1) {
      var save := register - SECONDS + SECONDS_SAVE;
      CopyOneSyncs(s1, save, value);
      CopyFields(s1, save, register);
      RecomputeKeeps(CopyTimeSave(s1, save, register));
    } else {
      RecomputeKeeps(s1);
    }
  }

  lemma WriteTimeSaveControlKeeps(s: Rtc, value: bv8)
    requires RunInvariant(s)
    ensures RunInvariant(WriteTimeSaveControl(s, value))
  {
    var s1 := Put(s, TIME_SAVE_CONTROL, value);
    CopySyncs(s1);
    OtherRegister(s, s1, TIME_SAVE_CONTROL);
    CopyKeepsAlarm(s1, CopyTimeSaves(s1, 5));
    hide CounterMask, SameUnder, CurrentAlarmMatches, CopyTimeSaves;
  }

  /** A register that no alarm and no copy involves. */
  lemma OtherRegister(s: Rtc, t: Rtc, register: nat)
    requires t.alternate == s.alternate && register < SECONDS
    requires forall r: nat :: r < 32 && r != register ==> t.registers[r] == s.registers[r]
    ensures CurrentAlarmMatches(t) == CurrentAlarmMatches(s)
    ensures forall save: nat :: SECONDS_SAVE <= save <= MONTH_SAVE ==> SaveInSync(t, save) == SaveInSync(s, save)
  {
    hide CounterMask, AlarmBit, SameUnder;
    assert forall bit: nat :: bit < 6 ==> AlarmFieldMatches(t, bit) == AlarmFieldMatches(s, bit);
  }

  lemma WriteCompareKeeps(s: Rtc, register: nat, value: bv8)
    requires RunInvariant(s) && SECONDS_COMPARE <= register <= DAY_OF_WEEK_COMPARE
    ensures RunInvariant(RecomputeAlarm(Put(s, register, value)))
  {
    var s1 := Put(s, register, value);
    hide CounterMask, SameUnder, CurrentAlarmMatches, RecomputeAlarm;
    forall save: nat | TimeSaveEnabled(s) && SECONDS_SAVE <= save <= MONTH_SAVE
      ensures SaveInSync(s1, save)
    {
      assert SaveInSync(s, save);
    }
    RecomputeKeeps(s1);
  }

  lemma WriteAlternateKeeps(s: Rtc, register: nat, value: bv8)
    requires RunInvariant(s) && register < 4
    ensures RunInvariant(WriteAlternateControl(s, register, value))
  {
    if register == REAL_TIME_MODE {
      hide FinishClockChange;
      FinishKeeps(s.(alternate := s.alternate[REAL_TIME_MODE := value],
                     prescalerPhase := if Running(s) && !(value & 0x08 != 0) then 0 else s.prescalerPhase,
                     millisecond := if Running(s) && !(value & 0x08 != 0) then 0 else s.millisecond,
                     oscillatorFailed := s.oscillatorFailed && !(value & 0x08 != 0)));
    } else {
      var s1 := s.(alternate := s.alternate[register := value]);
      hide CounterMask, SameUnder, RecomputeAlarm;
      assert Mode12(s1) == Mode12(s);
      forall save: nat | TimeSaveEnabled(s) && SECONDS_SAVE <= save <= MONTH_SAVE
        ensures SaveInSync(s1, save)
      {
        assert SaveInSync(s, save);
      }
      if register == INTERRUPT_CONTROL_1 {
        RecomputeKeeps(s1);
      } else {
        assert forall bit: nat :: bit < 6 ==> AlarmFieldMatches(s1, bit) == AlarmFieldMatches(s, bit);
      }
    }
  }

  lemma UnusedRegister(s: Rtc, t: Rtc, register: nat)
    requires RunInvariant(s) && register < 32
    requires t.alternate == s.alternate && t.prescalerPhase == s.prescalerPhase && t.millisecond == s.millisecond
    requires t.alarmMatchActive == s.alarmMatchActive
    requires forall r: nat :: r < 32 && r != register ==> t.registers[r] == s.registers[r]
    requires register < TIME_SAVE_CONTROL || YEAR < register < DAY_OF_WEEK || register > MONTH_SAVE
    ensures RunInvariant(t)
  {
    hide CounterMask, AlarmBit, SameUnder;
    assert forall bit: nat :: bit < 6 ==> AlarmFieldMatches(t, bit) == AlarmFieldMatches(s, bit);
    assert forall save: nat :: SECONDS_SAVE <= save <= MONTH_SAVE ==> SaveInSync(t, save) == SaveInSync(s, save);
  }

  lemma WriteKeeps(s: Rtc, register: nat, value: bv8)
    requires RunInvariant(s) && register < 32
    ensures RunInvariant(WriteRegister(s, register, value))
  {
    hide RunInvariant, WriteAlternateControl, WriteTimeSaveControl, WriteCounter, WriteSave, RecomputeAlarm, AlternateBank;
    if register == MAIN_STATUS {
      UnusedRegister(s, WriteMainStatus(s, value), register);
    } else if 1 <= register <= 4 && AlternateBank(s) {
      WriteAlternateKeeps(s, register - 1, value);
    } else if register == PERIODIC_FLAG {
      UnusedRegister(s, WritePeriodicFlag(s, value), register);
    } else if register == TIME_SAVE_CONTROL {
      WriteTimeSaveControlKeeps(s, value);
    } else if HUNDREDTHS <= register <= YEAR || register == DAY_OF_WEEK {
      WriteCounterKeeps(s, register, value);
    } else if SECONDS_COMPARE <= register <= DAY_OF_WEEK_COMPARE {
      WriteCompareKeeps(s, register, value);
    } else if SECONDS_SAVE <= register <= MONTH_SAVE {
      WriteSaveKeeps(s, register, value);
    } else if register == 0x0c || register == 0x0d || register > MONTH_SAVE {
      UnusedRegister(s, WriteRegister(s, register, value), register);
    }
  }

  lemma ApplyKeeps(s: Rtc, saved: Rtc, operation: Operation)
    requires RunInvariant(s) && RunInvariant(saved)
    ensures RunInvariant(Apply(s, saved, operation))
  {
    hide RunInvariant, WriteRegister, AdvanceTime, AdvanceMilliseconds, DecodeClock, Running;
    match operation
    case Read(register) =>
      UnusedRegister(s, ClearPeriodicFlags(s), PERIODIC_FLAG);
    case Write(register, value) =>
      if register < 32 { WriteKeeps(s, register, value); }
    case Advance(elapsed) =>
      TimeKeeps(s, elapsed);
    case Restore(_, milliseconds) =>
      MillisecondsKeep(saved, milliseconds);
  }

  /** Every state reachable from power-on satisfies the run invariant. */
  lemma {:induction false} RunKeepsInvariant(operations: seq<Operation>)
    ensures RunInvariant(Run(PowerOn, operations))
    decreases |operations|
  {
    if operations == [] {
      assert AlarmEnables(PowerOn) == 0;
    } else {
      hide RunInvariant, Apply;
      var before, last := operations[..|operations| - 1], operations[|operations| - 1];
      RunKeepsInvariant(before);
      RunKeepsInvariant(UpToSave(before, last));
      ApplyKeeps(Run(PowerOn, before), Run(PowerOn, UpToSave(before, last)), last);
    }
  }
}
