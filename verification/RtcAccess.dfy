/**
 What register accesses show: a write is read back, nothing else that can be
 read changes, the counters read as the time, and the periodic flag register
 reads as the events since it was read last.
 */
module RtcAccess {
  import opened Options
  import opened Bcd
  import opened Calendar
  import opened ClockTime
  import opened RtcState
  import opened RtcMotion
  import opened RtcReach
  import opened RtcRun
  import opened RtcTime
  import opened CounterView
  import opened RtcTurns

  const BANK_SELECT: bv8 := 0x40

  function Selected(s: Rtc, alternate: bool): Rtc {
    var status := s.registers[MAIN_STATUS];
    Put(s, MAIN_STATUS, if alternate then status | BANK_SELECT else status & !BANK_SELECT)
  }

  /** What a read gives with the alternate bank selected, or without it. */
  function Seen(s: Rtc, alternate: bool, register: nat): bv8
    requires register < 32
  {
    ReadValue(Selected(s, alternate), register)
  }

  lemma SeenIsRead(s: Rtc, register: nat)
    requires register < 32
    ensures Seen(s, AlternateBank(s), register) == ReadValue(s, register)
  {
    var status := s.registers[MAIN_STATUS];
    assert status & 0x40 != 0 ==> status | 0x40 == status;
    assert status & 0x40 == 0 ==> status & !0x40 == status;
    assert Selected(s, AlternateBank(s)).registers == s.registers;
  }

  // What a write leaves

  /** A write to a register: it, the alarm pending bit, and the saves on their counters' bits. */
  ghost predicate Wrote(s: Rtc, t: Rtc, register: nat, stored: bv8)
    requires register < 32
  {
    var base := s.registers[register := stored];
    && (forall r: nat :: 1 <= r < 32 && !IsSave(r) ==> t.registers[r] == base[r])
    && t.registers[MAIN_STATUS] == base[MAIN_STATUS] | Flag(t.alarmMatchActive && !s.alarmMatchActive, ALARM_PENDING)
    && (forall r: nat :: r < 32 && IsSave(r) ==> AgreeOutside(base[r], t.registers[r], SaveBits(r, Mode12(t))))
    && (!TimeSaveEnabled(s) && !TimeSaveEnabled(t) ==> forall r: nat :: r < 32 && IsSave(r) ==> t.registers[r] == base[r])
  }

  predicate IsSave(register: nat) {
    SECONDS_SAVE <= register <= MONTH_SAVE
  }

  /** The bits of its counter that a save register copies. */
  function SaveBits(save: nat, mode12: bool): bv8
    requires IsSave(save)
  {
    CounterMask(save - SECONDS_SAVE + SECONDS, mode12)
  }

  lemma Stored(s: Rtc, register: nat, stored: bv8)
    requires register < 32
    ensures Wrote(s, Put(s, register, stored), register, stored)
  {
    hide CounterMask, Mode12, TimeSaveEnabled;
    OrNothing(s.registers[register := stored][MAIN_STATUS]);
  }

  lemma OrNothing(a: bv8)
    ensures a | 0 == a
  {
  }

  lemma Recomputed(t: Rtc)
    ensures var u := RecomputeAlarm(t);
            && u.registers == t.registers[MAIN_STATUS := t.registers[MAIN_STATUS]
                                                         | Flag(u.alarmMatchActive && !t.alarmMatchActive, ALARM_PENDING)]
            && u == t.(registers := u.registers, alarmMatchActive := CurrentAlarmMatches(t))
  {
    hide CurrentAlarmMatches, AlarmFieldMatches, FieldSelected, AlarmEnables, AlarmBit, SameUnder, CounterMask, Mode12;
    if !CurrentAlarmMatches(t) || t.alarmMatchActive {
      OrNothing(t.registers[MAIN_STATUS]);
      assert t.registers[MAIN_STATUS := t.registers[MAIN_STATUS]] == t.registers;
    }
  }

  lemma RecomputedModes(t: Rtc)
    ensures Mode12(RecomputeAlarm(t)) == Mode12(t) && TimeSaveEnabled(RecomputeAlarm(t)) == TimeSaveEnabled(t)
  {
    Recomputed(t);
    hide RecomputeAlarm;
  }

  lemma ThenRecomputed(s: Rtc, t: Rtc, register: nat, stored: bv8)
    requires register < 32 && Wrote(s, t, register, stored) && t.alarmMatchActive == s.alarmMatchActive
    ensures Wrote(s, RecomputeAlarm(t), register, stored)
  {
    Recomputed(t);
    RecomputedModes(t);
    OrNothing(s.registers[register := stored][MAIN_STATUS]);
    hide SaveBits, RecomputeAlarm, Mode12, TimeSaveEnabled;
  }

  /** Copying to the saves, all of them or some. */
  lemma ThenCopied(s: Rtc, t: Rtc, u: Rtc, register: nat, stored: bv8)
    requires register < 32 && Wrote(s, t, register, stored) && u == t.(registers := u.registers)
    requires TimeSaveEnabled(s) || TimeSaveEnabled(t)
    requires forall r: nat :: r < 32 && !IsSave(r) ==> u.registers[r] == t.registers[r]
    requires forall r: nat :: r < 32 && IsSave(r) ==> u.registers[r] == t.registers[r] || u.registers[r] == SavedByte(t, t, r)
    ensures Wrote(s, u, register, stored)
  {
    hide CounterMask, SavedByte;
    assert Mode12(u) == Mode12(t) && TimeSaveEnabled(u) == TimeSaveEnabled(t);
    hide Mode12, TimeSaveEnabled;
    forall r: nat | r < 32 && IsSave(r)
      ensures AgreeOutside(t.registers[r], u.registers[r], SaveBits(r, Mode12(t)))
    {
      SavedOutside(t, r);
    }
    hide SaveBits;
  }

  lemma SavedOutside(t: Rtc, r: nat)
    requires IsSave(r)
    ensures AgreeOutside(t.registers[r], SavedByte(t, t, r), SaveBits(r, Mode12(t)))
  {
    MaskedWrite(t.registers[r], SaveBits(r, Mode12(t)), t.registers[r - SECONDS_SAVE + SECONDS]);
  }

  lemma OneCopied(t: Rtc, save: nat)
    requires IsSave(save)
    ensures var u := CopyTimeSave(t, save, save - SECONDS_SAVE + SECONDS);
            u == t.(registers := t.registers[save := SavedByte(t, t, save)])
  {
  }

  lemma AllCopied(t: Rtc)
    ensures var u := CopyTimeSaves(t, 5);
            && u == t.(registers := u.registers)
            && (forall r: nat :: r < 32 && !IsSave(r) ==> u.registers[r] == t.registers[r])
            && (forall r: nat :: r < 32 && IsSave(r) ==> u.registers[r] == SavedByte(t, t, r))
  {
    CopiesSave(t, 5);
    CopySyncs(t);
    hide CopyTimeSaves, CounterMask;
  }

  /** What a write of a register below the status leaves in it. */
  function Stores(s: Rtc, register: nat, value: bv8): bv8
    requires register < 32
  {
    var before := s.registers[register];
    if 1 <= register <= 4 && AlternateBank(s) then before
    else if register == PERIODIC_FLAG then (before & 0x3f) | (value & 0x80)
    else if register == 0x0d then value & 0x03
    else if register <= 2 || 0x0f <= register <= 0x12 || (register == PAGE_ONE_RAM && !AlternateBank(s)) then before
    else value
  }

  lemma CounterWrote(s: Rtc, register: nat, value: bv8)
    requires IsCounter(register)
    ensures Wrote(s, WriteCounter(s, register, value), register, value)
  {
    var s1 := Put(s, register, value);
    Stored(s, register, value);
    hide Wrote, CopyTimeSave, RecomputeAlarm, SavedByte;
    var s2 := s1;
    if TimeSaveEnabled(s1) && SECONDS <= register <= MONTH {
      s2 := CopyTimeSave(s1, register - SECONDS + SECONDS_SAVE, register);
      CounterCopied(s, register, value);
    }
    hide TimeSaveEnabled;
    ThenRecomputed(s, s2, register, value);
  }

  lemma CounterCopied(s: Rtc, register: nat, value: bv8)
    requires SECONDS <= register <= MONTH && TimeSaveEnabled(Put(s, register, value))
    ensures var t := CopyTimeSave(Put(s, register, value), register - SECONDS + SECONDS_SAVE, register);
            Wrote(s, t, register, value) && t.alarmMatchActive == s.alarmMatchActive
  {
    var s1 := Put(s, register, value);
    Stored(s, register, value);
    OneCopied(s1, register - SECONDS + SECONDS_SAVE);
    hide CopyTimeSave, SavedByte, Wrote;
    ThenCopied(s, s1, CopyTimeSave(s1, register - SECONDS + SECONDS_SAVE, register), register, value);
  }

  lemma SaveWrote(s: Rtc, register: nat, value: bv8)
    requires IsSave(register)
    ensures Wrote(s, WriteSave(s, register, value), register, value)
  {
    var s1 := Put(s, register, value);
    Stored(s, register, value);
    OneCopied(s1, register);
    hide CopyTimeSave, SavedByte, Wrote;
    if TimeSaveEnabled(s1) {
      ThenCopied(s, s1, CopyTimeSave(s1, register, register - SECONDS_SAVE + SECONDS), register, value);
    }
  }

  lemma SaveControlWrote(s: Rtc, value: bv8)
    ensures Wrote(s, WriteTimeSaveControl(s, value), TIME_SAVE_CONTROL, value)
  {
    var s1 := Put(s, TIME_SAVE_CONTROL, value);
    Stored(s, TIME_SAVE_CONTROL, value);
    AllCopied(s1);
    hide CopyTimeSaves, SavedByte, Wrote, TimeSaveEnabled;
    if TimeSaveEnabled(s) || TimeSaveEnabled(s1) {
      ThenCopied(s, s1, CopyTimeSaves(s1, 5), TIME_SAVE_CONTROL, value);
    }
  }

  lemma CompareWrote(s: Rtc, register: nat, value: bv8)
    requires SECONDS_COMPARE <= register <= DAY_OF_WEEK_COMPARE
    ensures Wrote(s, RecomputeAlarm(Put(s, register, value)), register, value)
  {
    Stored(s, register, value);
    hide Wrote, RecomputeAlarm;
    ThenRecomputed(s, Put(s, register, value), register, value);
  }

  lemma ControlWrote(s: Rtc, register: nat, value: bv8)
    requires register < 4
    ensures Wrote(s, WriteAlternateControl(s, register, value), register + 1, s.registers[register + 1])
  {
    var t := WriteAlternateControl(s, register, value);
    var s1 := s.(alternate := s.alternate[register := value]);
    if register == REAL_TIME_MODE {
      s1 := ModeStored(s, value);
    }
    Untouched(s, s1, register + 1);
    AllCopied(s1);
    hide CopyTimeSaves, SavedByte, Wrote, RecomputeAlarm, Running;
    if register == REAL_TIME_MODE {
      var s2 := if TimeSaveEnabled(s1) then CopyTimeSaves(s1, 5) else s1;
      if TimeSaveEnabled(s1) {
        ThenCopied(s, s1, s2, register + 1, s.registers[register + 1]);
      }
      ThenRecomputed(s, s2, register + 1, s.registers[register + 1]);
    } else if register == INTERRUPT_CONTROL_1 {
      ThenRecomputed(s, s1, register + 1, s.registers[register + 1]);
    }
  }

  /** The state of a mode write before copies and alarm. */
  lemma ModeStored(s: Rtc, value: bv8) returns (s1: Rtc)
    ensures WriteRealTimeMode(s, value) == FinishClockChange(s1)
    ensures s1 == s.(alternate := s.alternate[REAL_TIME_MODE := value], prescalerPhase := s1.prescalerPhase,
                     millisecond := s1.millisecond, oscillatorFailed := s1.oscillatorFailed)
    ensures Running(s) && value & 0x08 == 0 ==> s1.prescalerPhase == 0 && s1.millisecond == 0
    ensures !(Running(s) && value & 0x08 == 0) ==> s1.prescalerPhase == s.prescalerPhase && s1.millisecond == s.millisecond
    ensures s1.oscillatorFailed == (s.oscillatorFailed && value & 0x08 == 0)
  {
    hide FinishClockChange;
    var stops := Running(s) && !(value & 0x08 != 0);
    s1 := s.(alternate := s.alternate[REAL_TIME_MODE := value],
             prescalerPhase := if stops then 0 else s.prescalerPhase,
             millisecond := if stops then 0 else s.millisecond,
             oscillatorFailed := s.oscillatorFailed && !(value & 0x08 != 0));
  }

  lemma Untouched(s: Rtc, s1: Rtc, register: nat)
    requires register < 32 && s1.registers == s.registers && s1.alarmMatchActive == s.alarmMatchActive
    ensures Wrote(s, s1, register, s.registers[register])
  {
    assert s.registers[register := s.registers[register]] == s.registers;
    OrNothing(s.registers[MAIN_STATUS]);
    hide CounterMask, Mode12, TimeSaveEnabled;
  }

  /** Every write but that of the main status leaves its byte, the pending bit and the saves changed at most. */
  lemma WriteLeaves(s: Rtc, register: nat, value: bv8)
    requires 1 <= register < 32
    ensures Wrote(s, WriteRegister(s, register, value), register, Stores(s, register, value))
  {
    hide Wrote, WriteCounter, WriteSave, WriteTimeSaveControl, WriteAlternateControl, RecomputeAlarm, AlternateBank;
    if 1 <= register <= 4 && AlternateBank(s) {
      ControlWrote(s, register - 1, value);
    } else if register == PERIODIC_FLAG {
      var t := WriteRegister(s, register, value);
      Stored(s, register, Stores(s, register, value));
      FlagsOnly(s, Put(s, register, Stores(s, register, value)), t, register, Stores(s, register, value));
    } else if register == TIME_SAVE_CONTROL {
      SaveControlWrote(s, value);
    } else if IsCounter(register) {
      CounterWrote(s, register, value);
    } else if SECONDS_COMPARE <= register <= DAY_OF_WEEK_COMPARE {
      CompareWrote(s, register, value);
    } else if IsSave(register) {
      SaveWrote(s, register, value);
    } else {
      Stored(s, register, Stores(s, register, value));
      Untouched(s, s, register);
    }
  }

  lemma FlagsOnly(s: Rtc, t: Rtc, u: Rtc, register: nat, stored: bv8)
    requires register < 32 && Wrote(s, t, register, stored) && u == t.(singleSupply := u.singleSupply)
    ensures Wrote(s, u, register, stored)
  {
    assert Mode12(u) == Mode12(t) && TimeSaveEnabled(u) == TimeSaveEnabled(t);
    hide Mode12, TimeSaveEnabled, SaveBits;
  }

  // A write and a read

  /** The registers that keep the whole byte, whatever bank is selected. */
  predicate KeepsByte(register: nat) {
    || HUNDREDTHS <= register <= 0x0c || register == DAY_OF_WEEK
    || SECONDS_COMPARE <= register <= DAY_OF_WEEK_COMPARE || register == 0x1f
  }

  lemma Control(s: Rtc, register: nat, value: bv8)
    requires register < 32
    ensures var t := WriteRegister(s, register, value);
            t.alternate == if 1 <= register <= 4 && AlternateBank(s) then s.alternate[register - 1 := value] else s.alternate
  {
    if register == 1 && AlternateBank(s) {
      var s1 := ModeStored(s, value);
      FinishFollows(s1);
    }
    hide RecomputeAlarm, CopyTimeSaves, CopyTimeSave, AlternateBank, FinishClockChange, WriteRealTimeMode, Running;
    forall t: Rtc
      ensures RecomputeAlarm(t).alternate == t.alternate && CopyTimeSaves(t, 5).alternate == t.alternate
    {
      Recomputed(t);
      AllCopied(t);
    }
    if IsSave(register) {
      OneCopied(Put(s, register, value), register);
    } else if SECONDS <= register <= MONTH {
      OneCopied(Put(s, register, value), register - SECONDS + SECONDS_SAVE);
    }
  }

  /** Most registers read as they were written. */
  lemma WriteThenRead(s: Rtc, register: nat, value: bv8)
    requires register < 32
    ensures var read := ReadValue(WriteRegister(s, register, value), register);
            && (KeepsByte(register) || register == TIME_SAVE_CONTROL || (1 <= register <= 4 && AlternateBank(s)) ==> read == value)
            && (register == 0x0d ==> read == value & 0x03)
            && (register == PAGE_ONE_RAM ==> read == if AlternateBank(s) then value else 0)
            && (0x0f <= register <= 0x12 || (1 <= register <= 2 && !AlternateBank(s)) ==> read == 0)
  {
    if register != MAIN_STATUS {
      BankStays(s, register, value);
      WriteLeaves(s, register, value);
      Control(s, register, value);
      hide WriteRegister, AlternateBank, SaveBits, TimeSaveEnabled;
    }
  }

  /** Only a write of the main status register selects another bank. */
  lemma BankStays(s: Rtc, register: nat, value: bv8)
    requires 1 <= register < 32
    ensures AlternateBank(WriteRegister(s, register, value)) == AlternateBank(s)
  {
    WriteLeaves(s, register, value);
    var t := WriteRegister(s, register, value);
    hide WriteRegister;
    SelectStays(s.registers[MAIN_STATUS], Flag(t.alarmMatchActive && !s.alarmMatchActive, ALARM_PENDING));
  }

  lemma SelectStays(status: bv8, pending: bv8)
    requires pending == 0 || pending == ALARM_PENDING
    ensures (status | pending) & 0x40 == status & 0x40
  {
  }

  /** A save register reads as its counter where that has bits, if copies are made, and otherwise as written. */
  lemma WriteThenReadSave(s: Rtc, save: nat, value: bv8)
    requires IsSave(save) && RunInvariant(s)
    ensures var t := WriteRegister(s, save, value);
            && AgreeOutside(ReadValue(t, save), value, SaveBits(save, Mode12(s)))
            && SameUnder(ReadValue(t, save), if TimeSaveEnabled(s) then ReadValue(t, save - SECONDS_SAVE + SECONDS) else value,
                         SaveBits(save, Mode12(s)))
  {
    SaveWritten(s, save, value);
    WriteKeeps(s, save, value);
    var t := WriteRegister(s, save, value);
    SavesRead(t, save);
    hide WriteRegister, CounterMask, ReadValue, CurrentAlarmMatches, SaveBits;
    if TimeSaveEnabled(s) {
      assert SaveInSync(t, save);
    }
  }

  /** Save registers and counters read as they are. */
  lemma SavesRead(s: Rtc, save: nat)
    requires IsSave(save)
    ensures ReadValue(s, save) == s.registers[save]
    ensures ReadValue(s, save - SECONDS_SAVE + SECONDS) == s.registers[save - SECONDS_SAVE + SECONDS]
  {
    hide InterruptAsserted, AlternateBank;
  }

  lemma SaveWritten(s: Rtc, save: nat, value: bv8)
    requires IsSave(save)
    ensures var t := WriteRegister(s, save, value);
            && Mode12(t) == Mode12(s) && TimeSaveEnabled(t) == TimeSaveEnabled(s)
            && AgreeOutside(t.registers[save], value, SaveBits(save, Mode12(s)))
            && (!TimeSaveEnabled(s) ==> t.registers[save] == value)
  {
    WriteLeaves(s, save, value);
    Control(s, save, value);
    hide WriteRegister, SaveBits, AlternateBank;
  }

  /** The main status keeps its upper bits as written, and a pending bit goes down by writing one to it. */
  lemma WriteThenReadStatus(s: Rtc, value: bv8)
    ensures var read := ReadValue(WriteRegister(s, MAIN_STATUS, value), MAIN_STATUS);
            && read & 0xf0 == value & 0xf0
            && read & 0x0c == ReadValue(s, MAIN_STATUS) & 0x0c & !value
            && read & 0x02 == 0
  {
    hide InterruptAsserted;
    StatusBits(s.registers[MAIN_STATUS], value, 0);
    StatusBits(s.registers[MAIN_STATUS], value, 1);
    assert ((s.registers[MAIN_STATUS] & 0xfc) | Flag(InterruptAsserted(s), 0x01)) & 0x0c == s.registers[MAIN_STATUS] & 0x0c;
  }

  lemma StatusBits(status: bv8, value: bv8, interrupt: bv8)
    requires interrupt == 0 || interrupt == 1
    ensures var written := (value & 0xf0) | (status & 0x0c & !(value & 0x0c));
            && ((written & 0xfc) | interrupt) & 0xf0 == value & 0xf0
            && ((written & 0xfc) | interrupt) & 0x0c == status & 0x0c & !value
            && ((written & 0xfc) | interrupt) & 0x02 == 0
  {
  }

  /** The periodic flag register keeps its test bit as written and its flags as they were. */
  lemma WriteThenReadFlags(s: Rtc, value: bv8)
    requires !AlternateBank(s)
    ensures var read := ReadValue(WriteRegister(s, PERIODIC_FLAG, value), PERIODIC_FLAG);
            && read & 0x80 == value & 0x80
            && read & 0x7f == ReadValue(s, PERIODIC_FLAG) & 0x7f
    ensures WriteRegister(s, PERIODIC_FLAG, value).singleSupply <==> value & 0x40 != 0
  {
    var t := WriteRegister(s, PERIODIC_FLAG, value);
    assert t == WritePeriodicFlag(s, value) && !AlternateBank(t);
    hide WriteRegister, AlternateBank;
    assert t.registers[PERIODIC_FLAG] == (s.registers[PERIODIC_FLAG] & 0x3f) | (value & 0x80);
    FlagBits(s.registers[PERIODIC_FLAG], value, Flag(s.oscillatorFailed, 0x40));
    hide WritePeriodicFlag, Flag;
  }

  lemma FlagBits(flags: bv8, value: bv8, failed: bv8)
    requires failed == 0 || failed == 0x40
    ensures var written := (flags & 0x3f) | (value & 0x80);
            && ((written & !0x40) | failed) & 0x80 == value & 0x80
            && ((written & !0x40) | failed) & 0x7f == ((flags & !0x40) | failed) & 0x7f
  {
  }

  /** Bit 0 of the main status is the interrupt: a periodic one, or an alarm that is enabled. */
  lemma StatusShowsInterrupt(s: Rtc)
    ensures var read := ReadValue(s, MAIN_STATUS);
            read & 0x01 != 0 <==> read & 0x04 != 0 || (read & 0x08 != 0 && Seen(s, true, 4) & 0x40 != 0)
  {
    var status := s.registers[MAIN_STATUS];
    InterruptBits(status, Flag(InterruptAsserted(s), 0x01));
    SelectedBank(status);
  }

  lemma SelectedBank(status: bv8)
    ensures (status | BANK_SELECT) & 0x40 != 0 && (status & !BANK_SELECT) & 0x40 == 0
  {
  }

  lemma InterruptBits(status: bv8, interrupt: bv8)
    requires interrupt == 0 || interrupt == 1
    ensures ((status & 0xfc) | interrupt) & 0x01 == interrupt
    ensures ((status & 0xfc) | interrupt) & 0x04 == status & 0x04
    ensures ((status & 0xfc) | interrupt) & 0x08 == status & 0x08
  {
  }

  // Other registers

  /** The two banks share their registers but for four. */
  predicate SamePlace(a: bool, register: nat, b: bool, other: nat) {
    register == other && (1 <= register <= 4 ==> a == b)
  }

  /** A write changes what can be read elsewhere in the copies and in the oscillator's flag at most. */
  lemma WriteElsewhere(s: Rtc, register: nat, value: bv8, alternate: bool, other: nat)
    requires register < 32 && 1 <= other < 32 && !SamePlace(AlternateBank(s), register, alternate, other)
    ensures var t := WriteRegister(s, register, value);
            && (!IsSave(other) && (other == PERIODIC_FLAG ==> alternate) ==> Seen(t, alternate, other) == Seen(s, alternate, other))
            && (other == PERIODIC_FLAG ==> Seen(t, alternate, other) & !0x40 == Seen(s, alternate, other) & !0x40)
            && (IsSave(other) ==> AgreeOutside(Seen(s, alternate, other), Seen(t, alternate, other), SaveBits(other, Mode12(t))))
            && (IsSave(other) && !TimeSaveEnabled(s) && !TimeSaveEnabled(t) ==>
                  Seen(t, alternate, other) == Seen(s, alternate, other))
  {
    var t := WriteRegister(s, register, value);
    SeenBytes(s, alternate, other);
    SeenBytes(t, alternate, other);
    Control(s, register, value);
    FailedBit(s.registers[PERIODIC_FLAG], Flag(s.oscillatorFailed, 0x40), Flag(t.oscillatorFailed, 0x40));
    if register == MAIN_STATUS {
      assert t == Put(s, MAIN_STATUS, t.registers[MAIN_STATUS]);
      hide WriteRegister, SaveBits, Seen;
    } else {
      WriteLeaves(s, register, value);
      hide Seen;
      hide WriteRegister, SaveBits, TimeSaveEnabled, AlternateBank, Mode12, Flag;
    }
  }

  lemma SeenBytes(s: Rtc, alternate: bool, register: nat)
    requires 1 <= register < 32
    ensures Seen(s, alternate, register)
         == if register <= 4 && alternate then s.alternate[register - 1]
            else if register <= 2 || 0x0f <= register <= 0x12 || (register == PAGE_ONE_RAM && !alternate) then 0
            else if register == PERIODIC_FLAG then (s.registers[PERIODIC_FLAG] & !0x40) | Flag(s.oscillatorFailed, 0x40)
            else s.registers[register]
  {
    SelectedBank(s.registers[MAIN_STATUS]);
    hide Flag;
  }

  lemma FailedBit(flags: bv8, a: bv8, b: bv8)
    requires (a == 0 || a == 0x40) && (b == 0 || b == 0x40)
    ensures ((flags & !0x40) | a) & !0x40 == ((flags & !0x40) | b) & !0x40
  {
  }

  /** Starting and stopping: the part of a hundredth is dropped by a stop, the oscillator's flag by a start. */
  lemma WriteStartsAndStops(s: Rtc, register: nat, value: bv8)
    requires register < 32
    ensures var t := WriteRegister(s, register, value);
            var mode := register == 1 && AlternateBank(s);
            && Running(t) == (if mode then value & 0x08 != 0 else Running(s))
            && t.oscillatorFailed == (s.oscillatorFailed && !(mode && Running(t)))
            && (if Running(s) && !Running(t) then t.prescalerPhase == 0 && t.millisecond == 0
                else t.prescalerPhase == s.prescalerPhase && t.millisecond == s.millisecond)
  {
    Control(s, register, value);
    if register == 1 && AlternateBank(s) {
      var s1 := ModeStored(s, value);
      FinishFollows(s1);
      hide FinishClockChange, WriteRealTimeMode, SavesFollow, StatusFollows, CurrentAlarmMatches;
    } else {
      WriteKeepsPhase(s, register, value);
      hide WriteRegister;
    }
  }

  predicate SamePhase(s: Rtc, t: Rtc) {
    t.prescalerPhase == s.prescalerPhase && t.millisecond == s.millisecond && t.oscillatorFailed == s.oscillatorFailed
  }

  lemma WriteKeepsPhase(s: Rtc, register: nat, value: bv8)
    requires register < 32 && !(register == 1 && AlternateBank(s))
    ensures SamePhase(s, WriteRegister(s, register, value))
  {
    hide AlternateBank, RecomputeAlarm, WriteCounter, WriteSave, WriteTimeSaveControl;
    if 2 <= register <= 4 && AlternateBank(s) {
      Recomputed(s.(alternate := s.alternate[register - 1 := value]));
    } else {
      Recomputed(Put(s, register, value));
      if IsCounter(register) {
        CounterKeepsPhase(s, register, value);
      } else if IsSave(register) || register == TIME_SAVE_CONTROL {
        CopyKeepsPhase(s, register, value);
      }
    }
  }

  lemma CounterKeepsPhase(s: Rtc, register: nat, value: bv8)
    requires IsCounter(register)
    ensures SamePhase(s, WriteCounter(s, register, value))
  {
    var s1 := Put(s, register, value);
    hide RecomputeAlarm, CopyTimeSave;
    Recomputed(s1);
    if SECONDS <= register <= MONTH {
      OneCopied(s1, register - SECONDS + SECONDS_SAVE);
      Recomputed(CopyTimeSave(s1, register - SECONDS + SECONDS_SAVE, register));
    }
    hide CurrentAlarmMatches, TimeSaveEnabled, SavedByte;
  }

  lemma CopyKeepsPhase(s: Rtc, register: nat, value: bv8)
    requires IsSave(register) || register == TIME_SAVE_CONTROL
    ensures IsSave(register) ==> SamePhase(s, WriteSave(s, register, value))
    ensures register == TIME_SAVE_CONTROL ==> SamePhase(s, WriteTimeSaveControl(s, value))
  {
    hide CopyTimeSave, CopyTimeSaves;
    if IsSave(register) {
      OneCopied(Put(s, register, value), register);
    } else {
      AllCopied(Put(s, register, value));
    }
    hide TimeSaveEnabled, SavedByte;
  }

  // Runs

  /** The bits of a register that only writing it changes. */
  function KeptBits(alternate: bool, register: nat): bv8 {
    if register == 1 && alternate then 0xfc
    else if 2 <= register <= 4 && alternate then 0xff
    else if register == PERIODIC_FLAG then 0x80
    else if register == TIME_SAVE_CONTROL || 0x0c <= register <= 0x0d || 0x0f <= register <= DAY_OF_WEEK_COMPARE
            || register >= PAGE_ONE_RAM then 0xff
    else 0
  }

  /** No operation of the run writes the register of that bank or restores an older state. */
  ghost predicate Spares(s: Rtc, operations: seq<Operation>, alternate: bool, register: nat)
    decreases |operations|
  {
    operations != [] ==>
      var before, last := operations[..|operations| - 1], operations[|operations| - 1];
      && Spares(s, before, alternate, register)
      && !last.Restore?
      && (last.Write? && last.register < 32 ==>
            !SamePlace(AlternateBank(Run(s, before)), last.register, alternate, register))
  }

  lemma WriteSpares(s: Rtc, register: nat, value: bv8, alternate: bool, other: nat)
    requires register < 32 && 1 <= other < 32 && !SamePlace(AlternateBank(s), register, alternate, other)
    ensures SameUnder(Seen(WriteRegister(s, register, value), alternate, other), Seen(s, alternate, other), KeptBits(alternate, other))
  {
    WriteElsewhere(s, register, value, alternate, other);
    var t := WriteRegister(s, register, value);
    hide WriteRegister, Seen, SamePlace;
    UpperBit(Seen(t, alternate, other), Seen(s, alternate, other));
  }

  lemma UpperBit(a: bv8, b: bv8)
    ensures a & !0x40 == b & !0x40 ==> SameUnder(a, b, 0x80)
    ensures SameUnder(a, b, 0)
  {
  }

  lemma TimeSpares(s: Rtc, elapsed: nat, alternate: bool, other: nat)
    requires RunInvariant(s) && 1 <= other < 32
    ensures SameUnder(Seen(AdvanceTime(s, elapsed), alternate, other), Seen(s, alternate, other), KeptBits(alternate, other))
  {
    hide *;
    if Running(s) {
      var milliseconds, rest := Elapsed(s, elapsed);
      StepsSpare(s, milliseconds, rest, alternate, other);
    } else {
      StoppedStays(s, elapsed);
      SameAsItself(Seen(s, alternate, other), KeptBits(alternate, other));
    }
  }

  lemma SameAsItself(a: bv8, mask: bv8)
    ensures SameUnder(a, a, mask)
  {
  }

  lemma Elapsed(s: Rtc, elapsed: nat) returns (milliseconds: nat, rest: nat)
    requires RunInvariant(s) && Running(s)
    ensures s.prescalerPhase + elapsed == milliseconds * ATTOSECONDS_PER_MILLISECOND + rest && rest < ATTOSECONDS_PER_MILLISECOND
    ensures AdvanceTime(s, elapsed) == WithPhase(AdvanceMilliseconds(s, milliseconds), rest)
    ensures s.millisecond < 10
  {
    hide AdvanceTime, WithPhase, AdvanceMilliseconds, Running, AlarmInSync, SavesInSync;
    milliseconds, rest := SplitPhase(s.prescalerPhase + elapsed);
    AdvanceIs(s, elapsed, milliseconds, rest);
  }

  lemma StepsSpare(s: Rtc, milliseconds: nat, rest: nat, alternate: bool, other: nat)
    requires s.millisecond < 10 && 1 <= other < 32
    ensures SameUnder(Seen(WithPhase(AdvanceMilliseconds(s, milliseconds), rest), alternate, other), Seen(s, alternate, other),
                      KeptBits(alternate, other))
  {
    var t := AdvanceMilliseconds(s, milliseconds);
    StepsWent(s, milliseconds);
    TestBitStays(s, milliseconds);
    hide AdvanceMilliseconds, Seen, ViewOf, ViewAfter, SavesKept, Frozen, StillNone, KeptBits;
    assert WithPhase(t, rest).(prescalerPhase := s.prescalerPhase) == t;
    ConfigSpares(s, WithPhase(t, rest), alternate, other);
  }

  lemma ConfigSpares(s: Rtc, t: Rtc, alternate: bool, other: nat)
    requires 1 <= other < 32
    requires SameConfig(s, t.(prescalerPhase := s.prescalerPhase))
    requires t.registers[PERIODIC_FLAG] & 0x80 == s.registers[PERIODIC_FLAG] & 0x80
    ensures SameUnder(Seen(t, alternate, other), Seen(s, alternate, other), KeptBits(alternate, other))
  {
    SeenBytes(s, alternate, other);
    SeenBytes(t, alternate, other);
    hide Seen, Mode12, Flag;
    if other == PERIODIC_FLAG && !alternate {
      TestBit(t.registers[PERIODIC_FLAG], s.registers[PERIODIC_FLAG], Flag(s.oscillatorFailed, 0x40));
    } else if other <= 4 && alternate {
      hide AgreeOutside;
    } else {
      Outside(t.registers[other], s.registers[other]);
      SameAsItself(s.registers[other], KeptBits(alternate, other));
      SameAsItself(0, KeptBits(alternate, other));
      hide AgreeOutside, SameUnder;
    }
  }

  lemma Outside(a: bv8, b: bv8)
    ensures AgreeOutside(b, a, 0) ==> a == b
    ensures SameUnder(a, b, 0)
  {
  }

  lemma TestBit(a: bv8, b: bv8, failed: bv8)
    requires a & 0x80 == b & 0x80
    ensures SameUnder((a & !0x40) | failed, (b & !0x40) | failed, 0x80)
  {
  }

  /**
   On a run that does not write a register, every bit of it that is no counter, copy
   or flag reads as at the start, whatever else is written and however the time passes.
   */
  lemma {:induction false} StaysAsWritten(s: Rtc, operations: seq<Operation>, alternate: bool, register: nat)
    requires RunInvariant(s) && 1 <= register < 32 && Spares(s, operations, alternate, register)
    ensures RunInvariant(Run(s, operations))
    ensures SameUnder(Seen(Run(s, operations), alternate, register), Seen(s, alternate, register), KeptBits(alternate, register))
    decreases |operations|
  {
    if operations == [] {
      SameAsItself(Seen(s, alternate, register), KeptBits(alternate, register));
    } else {
      var before, last := operations[..|operations| - 1], operations[|operations| - 1];
      var u := Run(s, before);
      StaysAsWritten(s, before, alternate, register);
      hide Spares, Seen, RunInvariant, KeptBits, SamePlace;
      OperationSpares(u, last, alternate, register);
      hide Apply;
      SameChains(Seen(Run(s, operations), alternate, register), Seen(u, alternate, register), Seen(s, alternate, register),
                 KeptBits(alternate, register));
    }
  }

  lemma SameChains(a: bv8, b: bv8, c: bv8, mask: bv8)
    requires SameUnder(a, b, mask) && SameUnder(b, c, mask)
    ensures SameUnder(a, c, mask)
  {
  }

  lemma OperationSpares(s: Rtc, operation: Operation, alternate: bool, register: nat)
    requires RunInvariant(s) && 1 <= register < 32 && !operation.Restore?
    requires operation.Write? && operation.register < 32 ==>
               !SamePlace(AlternateBank(s), operation.register, alternate, register)
    ensures forall saved: Rtc ::
              && RunInvariant(Apply(s, saved, operation))
              && SameUnder(Seen(Apply(s, saved, operation), alternate, register), Seen(s, alternate, register),
                           KeptBits(alternate, register))
  {
    hide Seen, RunInvariant, KeptBits, AlternateBank, SamePlace, WriteRegister, AdvanceTime, AfterOffline;
    ApplyKeeps(s, s, operation);
    SameAsItself(Seen(s, alternate, register), KeptBits(alternate, register));
    hide SameUnder;
    match operation {
      case Read(r) => ReadSpares(s, r, alternate, register);
      case Write(r, value) =>
        if r < 32 {
          WriteSpares(s, r, value, alternate, register);
        }
      case Advance(elapsed) => TimeSpares(s, elapsed, alternate, register);
    }
  }

  lemma ReadSpares(s: Rtc, register: nat, alternate: bool, other: nat)
    requires 1 <= other < 32
    ensures SameUnder(Seen(AfterRead(s, register), alternate, other), Seen(s, alternate, other), KeptBits(alternate, other))
  {
    SeenBytes(s, alternate, other);
    SeenBytes(AfterRead(s, register), alternate, other);
    hide Seen, Flag, AlternateBank;
    if other == PERIODIC_FLAG && !alternate {
      ClearedBits(s.registers[PERIODIC_FLAG], Flag(s.oscillatorFailed, 0x40));
    } else {
      assert Seen(AfterRead(s, register), alternate, other) == Seen(s, alternate, other);
      SameAsItself(Seen(s, alternate, other), KeptBits(alternate, other));
      hide SameUnder, KeptBits, AfterRead;
    }
  }

  lemma ClearedBits(flags: bv8, failed: bv8)
    ensures SameUnder(((flags & !0x3f) & !0x40) | failed, (flags & !0x40) | failed, 0x80)
    ensures SameUnder((flags & !0x40) | failed, (flags & !0x40) | failed, 0x80)
  {
  }

  /** What was written last is what is read, until something else is written there. */
  lemma LastWrittenIsRead(s: Rtc, register: nat, value: bv8, operations: seq<Operation>)
    requires RunInvariant(s)
    requires KeepsByte(register) || (1 <= register <= 4 && AlternateBank(s)) || register == TIME_SAVE_CONTROL
    requires Spares(WriteRegister(s, register, value), operations, AlternateBank(s), register)
    ensures SameUnder(Seen(Run(WriteRegister(s, register, value), operations), AlternateBank(s), register), value,
                      KeptBits(AlternateBank(s), register))
  {
    var t := WriteRegister(s, register, value);
    hide Spares, Run, RunInvariant, WriteRegister, KeptBits, ReadValue, Seen, AlternateBank;
    WriteKeeps(s, register, value);
    WriteThenRead(s, register, value);
    BankStays(s, register, value);
    SeenIsRead(t, register);
    StaysAsWritten(t, operations, AlternateBank(s), register);
  }

  // The time

  /** A byte that holds two decimal digits. */
  predicate Digits(byte: bv8, value: nat) {
    (byte >> 4) as nat == value / 10 && (byte & 0x0f) as nat == value % 10
  }

  lemma HeldDigits(raw: bv8, mask: bv8, value: nat)
    requires value < 100 && Holds(raw, mask, value)
    ensures Digits(raw & mask, value)
  {
    var high, low := (value / 10) as bv8, (value % 10) as bv8;
    assert high <= 9 && low <= 9;
    assert ((high << 4) | low) >> 4 == high;
    assert ((high << 4) | low) & 0x0f == low;
  }

  /** On a clock that shows a time, the counters read as its decimal digits. */
  lemma CountersReadTheTime(s: Rtc, clock: ClockState)
    requires DecodeClock(s) == Some(clock)
    ensures Digits(ReadValue(s, HUNDREDTHS), clock.hundredths)
    ensures Digits(ReadValue(s, SECONDS) & 0x7f, clock.seconds)
    ensures Digits(ReadValue(s, MINUTES) & 0x7f, clock.minutes)
    ensures !Mode12(s) ==> Digits(ReadValue(s, HOURS) & 0x3f, clock.hour)
    ensures Mode12(s) ==>
              && Digits(ReadValue(s, HOURS) & 0x1f, if clock.hour % 12 == 0 then 12 else clock.hour % 12)
              && (ReadValue(s, HOURS) & 0x80 != 0 <==> clock.hour >= 12)
    ensures Digits(ReadValue(s, DAY_OF_MONTH) & 0x3f, clock.date.dayOfMonth)
    ensures Digits(ReadValue(s, MONTH) & 0x1f, clock.date.month)
    ensures Digits(ReadValue(s, YEAR), clock.date.year)
    ensures ReadValue(s, DAY_OF_WEEK) & 0x07 == clock.date.dayOfWeek as bv8
  {
    DecodesIffShows(s, clock);
    hide DecodeClock, Digits, ReadValue, Holds, HoldsHour, Mode12;
    ReadsRaw(s);
    HeldDigits(s.registers[HUNDREDTHS], 0xff, clock.hundredths);
    HeldDigits(s.registers[SECONDS], 0x7f, clock.seconds);
    HeldDigits(s.registers[MINUTES], 0x7f, clock.minutes);
    HourDigitsHeld(s.registers[HOURS], Mode12(s), clock.hour);
    HeldDigits(s.registers[DAY_OF_MONTH], 0x3f, clock.date.dayOfMonth);
    HeldDigits(s.registers[MONTH], 0x1f, clock.date.month);
    HeldDigits(s.registers[YEAR], 0xff, clock.date.year);
    WeekdayHeld(s.registers[DAY_OF_WEEK], clock.date.dayOfWeek);
  }

  lemma ReadsRaw(s: Rtc)
    ensures forall register: nat :: IsCounter(register) ==> ReadValue(s, register) == s.registers[register]
    ensures s.registers[HUNDREDTHS] & 0xff == s.registers[HUNDREDTHS] && s.registers[YEAR] & 0xff == s.registers[YEAR]
  {
    hide InterruptAsserted, AlternateBank;
  }

  lemma HourDigitsHeld(raw: bv8, mode12: bool, hour: nat)
    requires hour < 24 && HoldsHour(raw, mode12, hour)
    ensures !mode12 ==> Digits(raw & 0x3f, hour)
    ensures mode12 ==> Digits(raw & 0x1f, if hour % 12 == 0 then 12 else hour % 12) && (raw & 0x80 != 0 <==> hour >= 12)
  {
    if mode12 {
      HourParts(raw, hour);
      FieldRoundTrip(raw, 0x1f, 1, 12, HourDigits(hour));
      HeldDigits(raw, 0x1f, HourDigits(hour));
      hide Digits, HoldsHour, DecodeField, Holds;
    } else {
      HeldDigits(raw, 0x3f, hour);
    }
  }

  lemma WeekdayHeld(raw: bv8, weekday: nat)
    requires 1 <= weekday <= 7 && Holds(raw, 0x07, weekday)
    ensures raw & 0x07 == weekday as bv8
  {
    assert EncodeBcd(weekday) == weekday as bv8;
  }

  // The flags

  /** Some millisecond of that many, from what the counters show, raises one of the events. */
  ghost predicate Raised(v: ClockView, milliseconds: nat, events: bv8) {
    exists i: nat :: i < milliseconds && Raises(ViewAfter(v, i)) & events != 0
  }

  /** Flags are the events of the time passed. */
  lemma {:induction false} FlagsGather(s: Rtc, milliseconds: nat, events: bv8)
    requires s.millisecond < 10
    ensures AdvanceMilliseconds(s, milliseconds).registers[PERIODIC_FLAG] & events != 0
            <==> s.registers[PERIODIC_FLAG] & events != 0 || Raised(ViewOf(s), milliseconds, events)
  {
    hide ViewOf, ViewAfter, Raises, AdvanceMillisecond, SameConfig, SavesKept, Frozen, StillNone;
    if milliseconds != 0 {
      var t := AdvanceMilliseconds(s, milliseconds - 1);
      FlagsGather(s, milliseconds - 1, events);
      StepsWent(s, milliseconds - 1);
      MillisecondMoves(t);
      hide Pending, AdvanceMilliseconds;
      AndOr(t.registers[PERIODIC_FLAG], Raises(ViewOf(t)), events);
      assert Raised(ViewOf(s), milliseconds, events)
        <==> Raised(ViewOf(s), milliseconds - 1, events) || Raises(ViewAfter(ViewOf(s), milliseconds - 1)) & events != 0;
    }
  }

  lemma AndOr(a: bv8, b: bv8, c: bv8)
    ensures (a | b) & c != 0 <==> a & c != 0 || b & c != 0
  {
  }

  lemma EventsAreFlags(v: ClockView)
    ensures Raises(v) & 0x80 == 0
  {
    hide Up;
  }

  lemma TestBitStays(s: Rtc, milliseconds: nat)
    requires s.millisecond < 10
    ensures AdvanceMilliseconds(s, milliseconds).registers[PERIODIC_FLAG] & 0x80 == s.registers[PERIODIC_FLAG] & 0x80
  {
    FlagsGather(s, milliseconds, 0x80);
    forall i: nat
      ensures Raises(ViewAfter(ViewOf(s), i)) & 0x80 == 0
    {
      EventsAreFlags(ViewAfter(ViewOf(s), i));
    }
    hide AdvanceMilliseconds, ViewOf, ViewAfter, Raises;
    OneBit(AdvanceMilliseconds(s, milliseconds).registers[PERIODIC_FLAG], s.registers[PERIODIC_FLAG]);
  }

  lemma OneBit(a: bv8, b: bv8)
    ensures (a & 0x80 != 0 <==> b & 0x80 != 0) ==> a & 0x80 == b & 0x80
  {
  }

  /** The run neither reads nor restores the flags. */
  ghost predicate FlagsUnread(s: Rtc, operations: seq<Operation>)
    decreases |operations|
  {
    operations != [] ==>
      var before, last := operations[..|operations| - 1], operations[|operations| - 1];
      && FlagsUnread(s, before) && !last.Restore?
      && (last == Read(PERIODIC_FLAG) ==> AlternateBank(Run(s, before)))
  }

  /** One of the events happens while time passes on the run. */
  ghost predicate Happens(s: Rtc, operations: seq<Operation>, events: bv8)
    decreases |operations|
  {
    operations != [] &&
    var before, last := operations[..|operations| - 1], operations[|operations| - 1];
    || Happens(s, before, events)
    || (last.Advance? && HappensDuring(Run(s, before), last.elapsed, events))
  }

  ghost predicate HappensDuring(s: Rtc, elapsed: nat, events: bv8) {
    Running(s) && Raised(ViewOf(s), (s.prescalerPhase + elapsed) / ATTOSECONDS_PER_MILLISECOND, events)
  }

  lemma TimeGathers(s: Rtc, elapsed: nat, events: bv8)
    requires RunInvariant(s)
    ensures AdvanceTime(s, elapsed).registers[PERIODIC_FLAG] & events != 0
            <==> s.registers[PERIODIC_FLAG] & events != 0 || HappensDuring(s, elapsed, events)
  {
    hide RunInvariant, Raised, ViewOf, AdvanceMilliseconds, Running, AdvanceTime;
    if Running(s) {
      var milliseconds, rest := Elapsed(s, elapsed);
      assert milliseconds == (s.prescalerPhase + elapsed) / ATTOSECONDS_PER_MILLISECOND;
      FlagsGather(s, milliseconds, events);
    } else {
      StoppedStays(s, elapsed);
    }
  }

  lemma WriteKeepsFlags(s: Rtc, register: nat, value: bv8, events: bv8)
    requires register < 32 && events & !0x3f == 0
    ensures WriteRegister(s, register, value).registers[PERIODIC_FLAG] & events == s.registers[PERIODIC_FLAG] & events
  {
    if register != MAIN_STATUS {
      WriteLeaves(s, register, value);
    }
    EventBits(s.registers[PERIODIC_FLAG], value, events);
    hide WriteRegister, SaveBits, TimeSaveEnabled, AlternateBank, Mode12;
  }

  lemma EventBits(flags: bv8, value: bv8, events: bv8)
    requires events & !0x3f == 0
    ensures ((flags & 0x3f) | (value & 0x80)) & events == flags & events
    ensures (flags & !0x3f) & events == 0
  {
  }

  lemma {:induction false} RunGathers(s: Rtc, operations: seq<Operation>, events: bv8)
    requires RunInvariant(s) && FlagsUnread(s, operations) && events & !0x3f == 0
    ensures RunInvariant(Run(s, operations))
    ensures Run(s, operations).registers[PERIODIC_FLAG] & events != 0
            <==> s.registers[PERIODIC_FLAG] & events != 0 || Happens(s, operations, events)
    decreases |operations|
  {
    if operations != [] {
      var before, last := operations[..|operations| - 1], operations[|operations| - 1];
      var u := Run(s, before);
      RunGathers(s, before, events);
      hide RunInvariant, HappensDuring, FlagsUnread;
      OperationGathers(u, last, events);
      hide Apply;
    }
  }

  lemma OperationGathers(s: Rtc, operation: Operation, events: bv8)
    requires RunInvariant(s) && events & !0x3f == 0 && !operation.Restore?
    requires operation == Read(PERIODIC_FLAG) ==> AlternateBank(s)
    ensures forall saved: Rtc ::
              && RunInvariant(Apply(s, saved, operation))
              && (Apply(s, saved, operation).registers[PERIODIC_FLAG] & events != 0
                  <==> s.registers[PERIODIC_FLAG] & events != 0
                       || (operation.Advance? && HappensDuring(s, operation.elapsed, events)))
  {
    hide RunInvariant, HappensDuring, AlternateBank, WriteRegister, AdvanceTime, AfterOffline;
    ApplyKeeps(s, s, operation);
    match operation {
      case Read(_) =>
      case Write(r, value) =>
        if r < 32 {
          WriteKeepsFlags(s, r, value, events);
        }
      case Advance(elapsed) => TimeGathers(s, elapsed, events);
    }
  }

  /** The flag register reads as the events since it was last read, on every run. */
  lemma FlagsSinceRead(s: Rtc, operations: seq<Operation>, events: bv8)
    requires RunInvariant(s) && !AlternateBank(s) && events & !0x3f == 0
    requires FlagsUnread(AfterRead(s, PERIODIC_FLAG), operations)
    ensures Seen(Run(AfterRead(s, PERIODIC_FLAG), operations), false, PERIODIC_FLAG) & events != 0
            <==> Happens(AfterRead(s, PERIODIC_FLAG), operations, events)
  {
    var t := AfterRead(s, PERIODIC_FLAG);
    assert t.registers[PERIODIC_FLAG] == s.registers[PERIODIC_FLAG] & !0x3f;
    EventBits(s.registers[PERIODIC_FLAG], 0, events);
    ApplyKeeps(s, s, Read(PERIODIC_FLAG));
    hide RunInvariant, AlternateBank;
    assert Apply(s, s, Read(PERIODIC_FLAG)) == t;
    hide AfterRead, FlagsUnread, Happens;
    RunGathers(t, operations, events);
    var u := Run(t, operations);
    SeenBytes(u, false, PERIODIC_FLAG);
    hide Run, Seen;
    MaskedFlags(u.registers[PERIODIC_FLAG], Flag(u.oscillatorFailed, 0x40), events);
  }

  lemma MaskedFlags(flags: bv8, failed: bv8, events: bv8)
    requires events & !0x3f == 0 && (failed == 0 || failed == 0x40)
    ensures ((flags & !0x40) | failed) & events == flags & events
  {
  }
}
