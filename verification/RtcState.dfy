/**
 The DP8573A as a value, and its millisecond stepper: what the rest of the RTC
 model is measured against.  Each function names the branch structure of the
 method it specifies; the clock class refines them in place.
 */
module RtcState {
  import opened Options
  import opened Bcd
  import opened Calendar
  import opened ClockTime

  const MAIN_STATUS := 0x00
  const PERIODIC_FLAG := 0x03
  const TIME_SAVE_CONTROL := 0x04
  const HUNDREDTHS := 0x05
  const SECONDS := 0x06
  const MINUTES := 0x07
  const HOURS := 0x08
  const DAY_OF_MONTH := 0x09
  const MONTH := 0x0a
  const YEAR := 0x0b
  const DAY_OF_WEEK := 0x0e
  const SECONDS_COMPARE := 0x13
  const DAY_OF_WEEK_COMPARE := 0x18
  const SECONDS_SAVE := 0x19
  const MONTH_SAVE := 0x1d

  const REAL_TIME_MODE := 0
  const OUTPUT_MODE := 1
  const INTERRUPT_CONTROL_0 := 2
  const INTERRUPT_CONTROL_1 := 3

  const ALARM_PENDING: bv8 := 0x08
  const PERIODIC_PENDING: bv8 := 0x04

  const PERIODIC_MINUTE: bv8 := 0x01
  const PERIODIC_TEN_SECONDS: bv8 := 0x02
  const PERIODIC_SECOND: bv8 := 0x04
  const PERIODIC_HUNDRED_MILLISECONDS: bv8 := 0x08
  const PERIODIC_TEN_MILLISECONDS: bv8 := 0x10
  const PERIODIC_MILLISECOND: bv8 := 0x20

  type RegisterFile = s: seq<bv8> | |s| == 32 witness seq(32, _ => 0)
  type ControlFile = s: seq<bv8> | |s| == 4 witness seq(4, _ => 0)

  datatype Rtc = Rtc(
    registers: RegisterFile,
    alternate: ControlFile,
    prescalerPhase: nat,
    millisecond: nat,
    oscillatorFailed: bool,
    singleSupply: bool,
    alarmMatchActive: bool)

  predicate Running(s: Rtc) {
    s.alternate[REAL_TIME_MODE] & 0x08 != 0
  }

  predicate Mode12(s: Rtc) {
    s.alternate[REAL_TIME_MODE] & 0x04 != 0
  }

  predicate TimeSaveEnabled(s: Rtc) {
    s.registers[TIME_SAVE_CONTROL] & 0x80 != 0
  }

  function LeapPhase(s: Rtc): (phase: nat)
    ensures phase < 4
  {
    (s.alternate[REAL_TIME_MODE] & 0x03) as nat
  }

  function Put(s: Rtc, register: nat, value: bv8): Rtc
    requires register < 32
  {
    s.(registers := s.registers[register := value])
  }

  /** The bits of a counter that time-save and the alarm look at. */
  function CounterMask(register: nat, mode12: bool): bv8 {
    if register == SECONDS || register == MINUTES then 0x7f
    else if register == HOURS then HourMask(mode12)
    else if register == DAY_OF_MONTH then 0x3f
    else if register == MONTH then 0x1f
    else if register == DAY_OF_WEEK then 0x07
    else 0xff
  }

  // Time-save

  function CopyTimeSave(s: Rtc, destination: nat, source: nat): Rtc
    requires destination < 32 && source < 32
  {
    var mask := CounterMask(source, Mode12(s));
    Put(s, destination, (s.registers[destination] & !mask) | (s.registers[source] & mask))
  }

  function CopyTimeSaves(s: Rtc, count: nat): Rtc
    requires count <= 5
  {
    if count == 0 then s
    else CopyTimeSave(CopyTimeSaves(s, count - 1), SECONDS_SAVE + count - 1, SECONDS + count - 1)
  }

  // Alarm

  /** The counter an alarm enable bit compares; its compare register follows in the same order. */
  function AlarmCounter(bit: nat): nat {
    if bit == 5 then DAY_OF_WEEK else SECONDS + bit
  }

  function AlarmEnables(s: Rtc): bv8 {
    s.alternate[INTERRUPT_CONTROL_1] & 0x3f
  }

  function AlarmBit(bit: nat): bv8 {
    if bit == 0 then 0x01
    else if bit == 1 then 0x02
    else if bit == 2 then 0x04
    else if bit == 3 then 0x08
    else if bit == 4 then 0x10
    else 0x20
  }

  predicate FieldSelected(s: Rtc, bit: nat) {
    AlarmEnables(s) & AlarmBit(bit) != 0
  }

  predicate AlarmFieldMatches(s: Rtc, bit: nat)
    requires bit < 6
  {
    var counter := AlarmCounter(bit);
    var mask := CounterMask(counter, Mode12(s));
    FieldSelected(s, bit) ==> SameUnder(s.registers[counter], s.registers[SECONDS_COMPARE + bit], mask)
  }

  predicate CurrentAlarmMatches(s: Rtc) {
    AlarmEnables(s) != 0 && forall bit: nat :: bit < 6 ==> AlarmFieldMatches(s, bit)
  }

  function RecomputeAlarm(s: Rtc): Rtc {
    var matches := CurrentAlarmMatches(s);
    var s1 := if matches && !s.alarmMatchActive
              then Put(s, MAIN_STATUS, s.registers[MAIN_STATUS] | ALARM_PENDING) else s;
    s1.(alarmMatchActive := matches)
  }

  function FinishClockChange(s: Rtc): Rtc {
    RecomputeAlarm(if TimeSaveEnabled(s) then CopyTimeSaves(s, 5) else s)
  }

  // Counters

  datatype Increment = Invalid | Incremented(state: Rtc, value: nat, wrapped: bool)

  function IncrementBcd(s: Rtc, register: nat, mask: bv8, minimum: nat, maximum: nat): Increment
    requires register < 32 && minimum <= maximum < 100
  {
    var raw := s.registers[register];
    var value := DecodeField(raw, mask, minimum, maximum);
    if value.None? then Invalid
    else
      var wrapped := value.value == maximum;
      var next := if wrapped then minimum else value.value + 1;
      Incremented(Put(s, register, WithField(raw, mask, next)), next, wrapped)
  }

  /** An increment whose carry nobody looks at. */
  function BumpBcd(s: Rtc, register: nat, mask: bv8, minimum: nat, maximum: nat): Rtc
    requires register < 32 && minimum <= maximum < 100
  {
    var step := IncrementBcd(s, register, mask, minimum, maximum);
    if step.Invalid? then s else step.state
  }

  function DaysInCurrentMonth(s: Rtc): (days: nat)
    ensures 28 <= days <= 31
  {
    var month := DecodeBcd(s.registers[MONTH] & 0x1f);
    if month == Some(2) then (if s.alternate[REAL_TIME_MODE] & 0x03 == 0 then 29 else 28)
    else if month == Some(4) || month == Some(6) || month == Some(9) || month == Some(11) then 30
    else 31
  }

  function NextLeapPhase(s: Rtc): Rtc {
    var mode := s.alternate[REAL_TIME_MODE];
    s.(alternate := s.alternate[REAL_TIME_MODE := (mode & !0x03) | (((mode & 0x03) + 1) & 0x03)])
  }

  function AdvanceMonth(s: Rtc): Rtc {
    var month := IncrementBcd(s, MONTH, 0x1f, 1, 12);
    if month.Invalid? then s
    else if !month.wrapped then month.state
    else NextLeapPhase(BumpBcd(month.state, YEAR, 0xff, 0, 99))
  }

  function AdvanceDay(s: Rtc): Rtc {
    var day := IncrementBcd(s, DAY_OF_MONTH, 0x3f, 1, DaysInCurrentMonth(s));
    if day.Invalid? then s
    else
      var s1 := BumpBcd(day.state, DAY_OF_WEEK, 0x07, 1, 7);
      if day.wrapped then AdvanceMonth(s1) else s1
  }

  function AdvanceDays(s: Rtc, days: nat): Rtc {
    if days == 0 then s else AdvanceDay(AdvanceDays(s, days - 1))
  }

  function Advance12HourCounter(s: Rtc): Rtc {
    var raw := s.registers[HOURS];
    var decoded := DecodeField(raw, 0x1f, 1, 12);
    if decoded.None? then s
    else
      var hour := decoded.value;
      var wasPm := raw & 0x80 != 0;
      var nextHour := if hour == 12 then 1 else hour + 1;
      var nextPm := if hour == 11 then !wasPm else wasPm;
      var s1 := Put(s, HOURS, WithHour12(raw, nextHour, nextPm));
      if hour == 11 && wasPm then AdvanceDay(s1) else s1
  }

  function AdvanceHour(s: Rtc): Rtc {
    if Mode12(s) then Advance12HourCounter(s)
    else
      var hour := IncrementBcd(s, HOURS, 0x3f, 0, 23);
      if hour.Invalid? then s
      else if hour.wrapped then AdvanceDay(hour.state)
      else hour.state
  }

  function AdvanceMinute(s: Rtc): Rtc {
    var minute := IncrementBcd(s, MINUTES, 0x7f, 0, 59);
    if minute.Invalid? then s
    else if minute.wrapped then AdvanceHour(minute.state)
    else minute.state
  }

  /** The part of a hundredth that wraps: one second, with the events it raises. */
  function AdvanceSecond(s: Rtc): (Rtc, bv8) {
    var second := IncrementBcd(s, SECONDS, 0x7f, 0, 59);
    if second.Invalid? then (FinishClockChange(s), PERIODIC_SECOND)
    else
      var tens := if second.value % 10 == 0 then PERIODIC_TEN_SECONDS else 0;
      if second.wrapped then
        (FinishClockChange(AdvanceMinute(second.state)), PERIODIC_SECOND | tens | PERIODIC_MINUTE)
      else
        (FinishClockChange(second.state), PERIODIC_SECOND | tens)
  }

  function AdvanceHundredth(s: Rtc): (Rtc, bv8) {
    var hundredth := IncrementBcd(s, HUNDREDTHS, 0xff, 0, 99);
    if hundredth.Invalid? then (s, 0)
    else
      var tens := if hundredth.value % 10 == 0 then PERIODIC_HUNDRED_MILLISECONDS else 0;
      if !hundredth.wrapped then (hundredth.state, tens)
      else
        var (s1, events) := AdvanceSecond(hundredth.state);
        (s1, tens | events)
  }

  function RaisePeriodicEvents(s: Rtc, events: bv8): Rtc {
    var s1 := Put(s, PERIODIC_FLAG, s.registers[PERIODIC_FLAG] | events);
    if events & s.alternate[INTERRUPT_CONTROL_0] != 0
    then Put(s1, MAIN_STATUS, s1.registers[MAIN_STATUS] | PERIODIC_PENDING) else s1
  }

  function AdvanceMillisecond(s: Rtc): Rtc {
    if s.millisecond + 1 == 10 then
      var (s1, events) := AdvanceHundredth(s.(millisecond := 0));
      RaisePeriodicEvents(s1, PERIODIC_MILLISECOND | PERIODIC_TEN_MILLISECONDS | events)
    else
      RaisePeriodicEvents(s.(millisecond := s.millisecond + 1), PERIODIC_MILLISECOND)
  }

  /** The stepper run for a number of milliseconds. */
  function AdvanceMilliseconds(s: Rtc, milliseconds: nat): Rtc {
    if milliseconds == 0 then s else AdvanceMillisecond(AdvanceMilliseconds(s, milliseconds - 1))
  }

  // Decoding

  function DecodeDate(s: Rtc): (date: Option<CalendarDate>)
    ensures date.Some? ==> date.value.Valid()
  {
    var month := DecodeField(s.registers[MONTH], 0x1f, 1, 12);
    var year := DecodeField(s.registers[YEAR], 0xff, 0, 99);
    var leapYear := LeapPhase(s);
    if month.None? || year.None? then None
    else
      var dayOfMonth := DecodeField(s.registers[DAY_OF_MONTH], 0x3f, 1, DaysInMonth(month.value, leapYear));
      var dayOfWeek := DecodeField(s.registers[DAY_OF_WEEK], 0x07, 1, 7);
      if dayOfMonth.None? || dayOfWeek.None? then None
      else Some(CalendarDate(dayOfMonth.value, month.value, year.value, dayOfWeek.value, leapYear))
  }

  /** The whole clock, if every counter holds a number within its limits. */
  function DecodeClock(s: Rtc): (clock: Option<ClockState>)
    ensures clock.Some? ==> clock.value.Valid()
  {
    var hundredths := DecodeField(s.registers[HUNDREDTHS], 0xff, 0, 99);
    var seconds := DecodeField(s.registers[SECONDS], 0x7f, 0, 59);
    var minutes := DecodeField(s.registers[MINUTES], 0x7f, 0, 59);
    var hour := DecodeHour(s.registers[HOURS], Mode12(s));
    var date := DecodeDate(s);
    if hundredths.None? || seconds.None? || minutes.None? || hour.None? || date.None? then None
    else Some(ClockState(hundredths.value, seconds.value, minutes.value, hour.value, date.value))
  }
}
