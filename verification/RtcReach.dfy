/**
 Where a run of the stepper gets to.  `Reached` says everything about the state
 some milliseconds after a decodable one; it holds of the stepper's run
 (`StepperReaches`), and no two states satisfy it (`ReachedOnce`).
 */
module RtcReach {
  import opened Options
  import opened Bcd
  import opened Calendar
  import opened ClockTime
  import opened RtcState
  import opened RtcMotion

  // The alarm, as a property of the time shown

  /** The byte a clock would put in the counter that an alarm bit compares. */
  function AlarmByte(clock: ClockState, mode12: bool, bit: nat): bv8
    requires clock.Valid()
  {
    if bit == 0 then EncodeBcd(clock.seconds)
    else if bit == 1 then EncodeBcd(clock.minutes)
    else if bit == 2 then EncodeHour(clock.hour, mode12)
    else if bit == 3 then EncodeBcd(clock.date.dayOfMonth)
    else if bit == 4 then EncodeBcd(clock.date.month)
    else EncodeBcd(clock.date.dayOfWeek)
  }

  function AlarmMask(s: Rtc, bit: nat): bv8 {
    CounterMask(AlarmCounter(bit), Mode12(s))
  }

  predicate AlarmByteMatches(s: Rtc, bit: nat, value: bv8)
    requires bit < 6
  {
    FieldSelected(s, bit) ==> SameUnder(value, s.registers[SECONDS_COMPARE + bit], AlarmMask(s, bit))
  }

  predicate AlarmBitMatches(s: Rtc, clock: ClockState, bit: nat)
    requires clock.Valid() && bit < 6
  {
    AlarmByteMatches(s, bit, AlarmByte(clock, Mode12(s), bit))
  }

  /** Whether the alarm of a state would match at a given time. */
  predicate AlarmMatchesAt(s: Rtc, clock: ClockState)
    requires clock.Valid()
  {
    AlarmEnables(s) != 0 && forall bit: nat :: bit < 6 ==> AlarmBitMatches(s, clock, bit)
  }

  predicate AlarmAfter(s: Rtc, clock: ClockState, seconds: nat)
    requires clock.Valid()
  {
    AlarmMatchesAt(s, SecondsLater(clock, seconds))
  }

  /** The alarm flag some seconds on: at first what it was, then the match. */
  predicate FlagAfter(s: Rtc, clock: ClockState, seconds: nat)
    requires clock.Valid()
  {
    if seconds == 0 then s.alarmMatchActive else AlarmAfter(s, clock, seconds)
  }

  lemma FlagAtFirst(s: Rtc, clock: ClockState)
    requires clock.Valid()
    ensures FlagAfter(s, clock, 0) == s.alarmMatchActive
  {
  }

  lemma FlagIsMatch(s: Rtc, clock: ClockState, seconds: nat)
    requires clock.Valid() && seconds > 0
    ensures FlagAfter(s, clock, seconds) == AlarmAfter(s, clock, seconds)
  {
  }

  /** The alarm comes on at some second of the interval. */
  ghost predicate AlarmEdge(s: Rtc, clock: ClockState, seconds: nat)
    requires clock.Valid()
  {
    exists i: nat :: i < seconds && !FlagAfter(s, clock, i) && AlarmAfter(s, clock, i + 1)
  }

  // What stays the same

  predicate IsTouched(register: nat) {
    register == MAIN_STATUS || register == PERIODIC_FLAG || SECONDS_SAVE <= register <= MONTH_SAVE
  }

  /** Everything the passing of time leaves alone: compare registers, RAM, control and phase. */
  ghost predicate SameConfig(s: Rtc, t: Rtc) {
    && (forall r: nat :: r < 32 && !IsTouched(r) ==>
          AgreeOutside(s.registers[r], t.registers[r], ClockBits(r, Mode12(s))))
    && SameControl(s, t)
    && s.prescalerPhase == t.prescalerPhase
    && s.oscillatorFailed == t.oscillatorFailed
    && s.singleSupply == t.singleSupply
  }

  function SavedByte(s: Rtc, t: Rtc, save: nat): bv8
    requires SECONDS_SAVE <= save <= MONTH_SAVE
  {
    var source := save - SECONDS_SAVE + SECONDS;
    var mask := CounterMask(source, Mode12(s));
    (s.registers[save] & !mask) | (t.registers[source] & mask)
  }

  /** The time-save copies, if any second has been copied. */
  ghost predicate SavesFollow(s: Rtc, t: Rtc, copied: bool) {
    forall save: nat :: SECONDS_SAVE <= save <= MONTH_SAVE ==>
      t.registers[save] == if copied && TimeSaveEnabled(s) then SavedByte(s, t, save) else s.registers[save]
  }

  // The events of an interval

  ghost predicate HundredMillisecondsPassed(clock: ClockState, hundredths: nat) {
    MeetsMultiple(clock.hundredths, hundredths, 10)
  }

  predicate OnTenSeconds(clock: ClockState) {
    clock.seconds % 10 == 0
  }

  predicate OnMinute(clock: ClockState) {
    clock.seconds == 0
  }

  ghost predicate TenSecondsPassed(clock: ClockState, seconds: nat) {
    exists i: nat :: 1 <= i <= seconds && OnTenSeconds(SecondsLater(clock, i))
  }

  ghost predicate MinutePassed(clock: ClockState, seconds: nat) {
    exists i: nat :: 1 <= i <= seconds && OnMinute(SecondsLater(clock, i))
  }

  function Flag(raised: bool, bit: bv8): bv8 {
    if raised then bit else 0
  }

  ghost function SecondEvents(clock: ClockState, seconds: nat): bv8 {
    Flag(seconds > 0, PERIODIC_SECOND)
    | Flag(TenSecondsPassed(clock, seconds), PERIODIC_TEN_SECONDS)
    | Flag(MinutePassed(clock, seconds), PERIODIC_MINUTE)
  }

  /** The periodic events of an interval, given how many of each unit it completes. */
  ghost function EventsDuring(clock: ClockState, milliseconds: nat, hundredths: nat, seconds: nat): bv8 {
    Flag(milliseconds > 0, PERIODIC_MILLISECOND)
    | Flag(hundredths > 0, PERIODIC_TEN_MILLISECONDS)
    | Flag(HundredMillisecondsPassed(clock, hundredths), PERIODIC_HUNDRED_MILLISECONDS)
    | SecondEvents(clock, seconds)
  }

  /** Flags and alarm aside, where the state is. */
  ghost predicate Shown(s: Rtc, clock: ClockState, milliseconds: nat, hundredths: nat, seconds: nat, t: Rtc)
    requires clock.Valid()
  {
    && t.millisecond < 10
    && s.millisecond + milliseconds == 10 * hundredths + t.millisecond
    && 100 * seconds <= clock.hundredths + hundredths < 100 * seconds + 100
    && Shows(t, SecondsLater(clock, seconds).(hundredths := clock.hundredths + hundredths - 100 * seconds))
  }

  /** The state some milliseconds on, which complete this many hundredths and seconds. */
  ghost predicate Reached(s: Rtc, clock: ClockState, milliseconds: nat, hundredths: nat, seconds: nat, t: Rtc)
    requires clock.Valid()
  {
    && Shown(s, clock, milliseconds, hundredths, seconds, t)
    && SameConfig(s, t)
    && SavesFollow(s, t, seconds > 0)
    && StatusFollows(s, t, EventsDuring(clock, milliseconds, hundredths, seconds), AlarmEdge(s, clock, seconds))
    && t.alarmMatchActive == FlagAfter(s, clock, seconds)
  }

  predicate StatusFollows(s: Rtc, t: Rtc, events: bv8, edge: bool) {
    && t.registers[PERIODIC_FLAG] == s.registers[PERIODIC_FLAG] | events
    && t.registers[MAIN_STATUS] == Pending(s.registers[MAIN_STATUS], events, s.alternate[INTERRUPT_CONTROL_0], edge)
  }

  /** The main status register with the pending bits of some events and of an alarm edge. */
  function Pending(status: bv8, events: bv8, enables: bv8, edge: bool): bv8 {
    status | Flag(events & enables != 0, PERIODIC_PENDING) | Flag(edge, ALARM_PENDING)
  }

  // Uniqueness

  lemma SameCounts(a: nat, m: nat, h1: nat, r1: nat, h2: nat, r2: nat)
    requires a + m == 10 * h1 + r1 && a + m == 10 * h2 + r2 && r1 < 10 && r2 < 10
    ensures h1 == h2 && r1 == r2
  {
  }

  lemma ShownBytes(s: Rtc, t: Rtc, clock: ClockState, r: nat)
    requires Shows(s, clock) && Shows(t, clock) && Mode12(s) == Mode12(t) && IsCounter(r)
    ensures SameUnder(s.registers[r], t.registers[r], ClockBits(r, Mode12(s)))
  {
    hide EncodeBcd, EncodeHour, Mode12;
  }

  /** Nothing about the state is left open. */
  lemma ReachedOnce(s: Rtc, clock: ClockState, milliseconds: nat, h1: nat, s1: nat, t1: Rtc,
                    h2: nat, s2: nat, t2: Rtc)
    requires clock.Valid()
    requires Reached(s, clock, milliseconds, h1, s1, t1) && Reached(s, clock, milliseconds, h2, s2, t2)
    ensures t1 == t2
  {
    hide ClockBits, Mode12, LeapPhase, EventsDuring, AlarmEdge, AlarmAfter, FlagAfter, StatusFollows, Holds, HoldsHour;
    SameCounts(s.millisecond, milliseconds, h1, t1.millisecond, h2, t2.millisecond);
    assert s1 == s2;
    var shown := SecondsLater(clock, s1).(hundredths := clock.hundredths + h1 - 100 * s1);
    assert Shows(t1, shown) && Shows(t2, shown);
    SameModes(s, t1);
    SameModes(s, t2);
    SameStatus(s, t1, t2, EventsDuring(clock, milliseconds, h1, s1), AlarmEdge(s, clock, s1));
    SameRegisters(s, t1, t2, shown);
    SameSaves(s, t1, t2, s1 > 0);
    SameAlternate(s, t1, t2, shown.date);
    assert t1.registers == t2.registers;
  }

  lemma SameStatus(s: Rtc, t: Rtc, u: Rtc, events: bv8, edge: bool)
    requires StatusFollows(s, t, events, edge) && StatusFollows(s, u, events, edge)
    ensures t.registers[MAIN_STATUS] == u.registers[MAIN_STATUS]
    ensures t.registers[PERIODIC_FLAG] == u.registers[PERIODIC_FLAG]
  {
  }

  lemma SameRegisters(s: Rtc, t: Rtc, u: Rtc, shown: ClockState)
    requires SameConfig(s, t) && SameConfig(s, u) && Shows(t, shown) && Shows(u, shown)
    ensures forall r: nat :: r < 32 && !IsTouched(r) ==> t.registers[r] == u.registers[r]
  {
    SameModes(s, t);
    SameModes(s, u);
    forall r: nat | r < 32 && !IsTouched(r)
      ensures t.registers[r] == u.registers[r]
    {
      hide Mode12, Shows;
      SameRegister(s, t, u, shown, r);
    }
  }

  lemma SameRegister(s: Rtc, t: Rtc, u: Rtc, shown: ClockState, r: nat)
    requires SameConfig(s, t) && SameConfig(s, u) && Shows(t, shown) && Shows(u, shown)
    requires Mode12(t) == Mode12(s) && Mode12(u) == Mode12(s) && r < 32 && !IsTouched(r)
    ensures t.registers[r] == u.registers[r]
  {
    hide Mode12, Shows;
    var bits := ClockBits(r, Mode12(s));
    if IsCounter(r) {
      ShownBytes(t, u, shown, r);
    } else {
      NoBits(t.registers[r], u.registers[r]);
    }
    hide ClockBits;
    AgreeChain(t.registers[r], s.registers[r], u.registers[r], bits);
    SplitByte(t.registers[r], u.registers[r], bits);
  }

  lemma NoBits(a: bv8, b: bv8)
    ensures SameUnder(a, b, 0)
  {
  }

  lemma AgreeChain(a: bv8, b: bv8, c: bv8, mask: bv8)
    requires AgreeOutside(b, a, mask) && AgreeOutside(b, c, mask)
    ensures AgreeOutside(a, c, mask)
  {
  }

  lemma SameSaves(s: Rtc, t: Rtc, u: Rtc, copied: bool)
    requires SavesFollow(s, t, copied) && SavesFollow(s, u, copied)
    requires forall r: nat :: r < 32 && !IsTouched(r) ==> t.registers[r] == u.registers[r]
    ensures forall r: nat :: SECONDS_SAVE <= r <= MONTH_SAVE ==> t.registers[r] == u.registers[r]
  {
    forall r: nat | SECONDS_SAVE <= r <= MONTH_SAVE
      ensures t.registers[r] == u.registers[r]
    {
      var source := r - SECONDS_SAVE + SECONDS;
      assert !IsTouched(source);
    }
  }

  lemma SameAlternate(s: Rtc, t: Rtc, u: Rtc, date: CalendarDate)
    requires SameControl(s, t) && SameControl(s, u) && LeapPhase(t) == LeapPhase(u)
    ensures t.alternate == u.alternate
  {
    var a, b := t.alternate[REAL_TIME_MODE], u.alternate[REAL_TIME_MODE];
    SameRealTimeMode(s, t, u);
    hide LeapPhase;
    assert t.alternate == [a, t.alternate[1], t.alternate[2], t.alternate[3]];
    assert u.alternate == [b, u.alternate[1], u.alternate[2], u.alternate[3]];
  }

  lemma SameRealTimeMode(s: Rtc, t: Rtc, u: Rtc)
    requires SameControl(s, t) && SameControl(s, u) && LeapPhase(t) == LeapPhase(u)
    ensures t.alternate[REAL_TIME_MODE] == u.alternate[REAL_TIME_MODE]
  {
    LeapDetermines(t.alternate[REAL_TIME_MODE], u.alternate[REAL_TIME_MODE]);
  }

  lemma LeapDetermines(a: bv8, b: bv8)
    requires a & 0xfc == b & 0xfc && (a & 0x03) as nat == (b & 0x03) as nat
    ensures a == b
  {
    assert a & 0x03 == b & 0x03;
  }

  // The alarm of the registers is the alarm of the time they show

  lemma OutsideClock(s: Rtc, t: Rtc, r: nat)
    requires SameConfig(s, t) && r < 32 && !IsTouched(r) && !IsCounter(r)
    ensures s.registers[r] == t.registers[r]
  {
    assert AgreeOutside(s.registers[r], t.registers[r], 0);
    NoMask(s.registers[r], t.registers[r]);
  }

  lemma NoMask(a: bv8, b: bv8)
    requires AgreeOutside(a, b, 0)
    ensures a == b
  {
    assert a & !0 == a && b & !0 == b;
  }

  /** The bits an alarm compares are those of the time shown. */
  lemma CounterShows(t: Rtc, clock: ClockState, bit: nat)
    requires Shows(t, clock) && bit < 6
    ensures SameUnder(t.registers[AlarmCounter(bit)], AlarmByte(clock, Mode12(t), bit), AlarmMask(t, bit))
  {
    hide EncodeBcd, EncodeHour, Mode12, LeapPhase;
    var mask := CounterMask(AlarmCounter(bit), Mode12(t));
    assert t.registers[AlarmCounter(bit)] & mask == AlarmByte(clock, Mode12(t), bit);
    MaskTwice(t.registers[AlarmCounter(bit)], mask);
  }

  lemma MaskTwice(a: bv8, mask: bv8)
    ensures (a & mask) & mask == a & mask
  {
  }

  lemma AlarmFieldShown(s: Rtc, t: Rtc, clock: ClockState, bit: nat)
    requires SameConfig(s, t) && Shows(t, clock) && bit < 6
    ensures AlarmFieldMatches(t, bit) == AlarmByteMatches(s, bit, AlarmByte(clock, Mode12(s), bit))
  {
    assert SameControl(s, t);
    hide SameConfig, SameControl, Shows, Mode12, AlarmByte, CounterMask, FieldSelected, AlarmCounter, SameUnder;
    SameModes(s, t);
    CompareByte(s, t, bit);
    CounterShows(t, clock, bit);
    SameUnderSwaps(t.registers[AlarmCounter(bit)], AlarmByte(clock, Mode12(s), bit),
                   s.registers[SECONDS_COMPARE + bit], AlarmMask(s, bit));
  }

  lemma CompareByte(s: Rtc, t: Rtc, bit: nat)
    requires SameConfig(s, t) && bit < 6
    ensures s.registers[SECONDS_COMPARE + bit] == t.registers[SECONDS_COMPARE + bit]
    ensures FieldSelected(s, bit) == FieldSelected(t, bit)
  {
    hide Mode12, AlarmBit, SameConfig;
    OutsideClock(s, t, SECONDS_COMPARE + bit);
    SameEnables(s, t);
  }

  lemma SameEnables(s: Rtc, t: Rtc)
    requires SameConfig(s, t)
    ensures AlarmEnables(s) == AlarmEnables(t)
  {
  }

  lemma AlarmShown(s: Rtc, t: Rtc, clock: ClockState)
    requires SameConfig(s, t) && Shows(t, clock)
    ensures CurrentAlarmMatches(t) == AlarmMatchesAt(s, clock)
  {
    assert clock.Valid();
    hide SameConfig, Shows, AlarmFieldMatches, AlarmByteMatches, AlarmEnables, Mode12;
    SameEnables(s, t);
    forall bit: nat | bit < 6
      ensures AlarmFieldMatches(t, bit) == AlarmBitMatches(s, clock, bit)
    {
      AlarmFieldShown(s, t, clock, bit);
    }
  }

  // Time-save

  /** Copying touches the save registers, and takes the counters as they are. */
  lemma {:induction false} CopiesSave(s: Rtc, count: nat)
    requires count <= 5
    ensures var t := CopyTimeSaves(s, count);
            && t == s.(registers := t.registers)
            && (forall r: nat :: r < 32 && !(SECONDS_SAVE <= r < SECONDS_SAVE + count) ==>
                  t.registers[r] == s.registers[r])
            && (forall r: nat :: SECONDS_SAVE <= r < SECONDS_SAVE + count ==> t.registers[r] == SavedByte(s, s, r))
  {
    if count != 0 {
      CopiesSave(s, count - 1);
      hide CounterMask;
      assert Mode12(CopyTimeSaves(s, count - 1)) == Mode12(s);
    }
  }

  // One second

  lemma SavedTwice(a: bv8, b: bv8, c: bv8, mask: bv8)
    ensures (((a & !mask) | (b & mask)) & !mask) | (c & mask) == (a & !mask) | (c & mask)
  {
  }

  /** What finishing a clock change does: the copies and the alarm, and nothing else. */
  lemma FinishFollows(s: Rtc)
    ensures var t := FinishClockChange(s);
            && (forall r: nat :: r < 32 && r != MAIN_STATUS && !(SECONDS_SAVE <= r <= MONTH_SAVE) ==>
                  t.registers[r] == s.registers[r])
            && SavesFollow(s, t, true)
            && StatusFollows(s, t, 0, CurrentAlarmMatches(s) && !s.alarmMatchActive)
            && t.alarmMatchActive == CurrentAlarmMatches(s)
            && t == s.(registers := t.registers, alarmMatchActive := t.alarmMatchActive)
  {
    var u := if TimeSaveEnabled(s) then CopyTimeSaves(s, 5) else s;
    CopiesSave(s, 5);
    CopyKeepsAlarm(s, u);
    hide CounterMask, TimeSaveEnabled, CurrentAlarmMatches, CopyTimeSaves, Mode12, Pending;
    OnlyEdge(s.registers[MAIN_STATUS], s.registers[PERIODIC_FLAG], s.alternate[INTERRUPT_CONTROL_0]);
  }

  lemma OnlyEdge(status: bv8, flags: bv8, enables: bv8)
    ensures flags | 0 == flags
    ensures Pending(status, 0, enables, false) == status
    ensures Pending(status, 0, enables, true) == status | ALARM_PENDING
  {
  }

  lemma CopyKeepsAlarm(s: Rtc, u: Rtc)
    requires u.alternate == s.alternate
    requires forall r: nat :: r < 32 && !(SECONDS_SAVE <= r <= MONTH_SAVE) ==> u.registers[r] == s.registers[r]
    ensures CurrentAlarmMatches(u) == CurrentAlarmMatches(s)
  {
    assert forall bit: nat :: bit < 6 ==> AlarmFieldMatches(u, bit) == AlarmFieldMatches(s, bit) by {
      hide CounterMask, AlarmBit;
    }
  }

  // Putting steps together

  lemma RaiseFollows(s: Rtc, events: bv8)
    ensures var t := RaisePeriodicEvents(s, events);
            && (forall r: nat :: r < 32 && r != MAIN_STATUS && r != PERIODIC_FLAG ==>
                  t.registers[r] == s.registers[r])
            && t == s.(registers := t.registers)
            && StatusFollows(s, t, events, false)
  {
    hide Pending, Flag;
    PendingWithoutEdge(s.registers[MAIN_STATUS], events, s.alternate[INTERRUPT_CONTROL_0]);
  }

  lemma PendingWithoutEdge(status: bv8, events: bv8, enables: bv8)
    ensures Pending(status, events, enables, false)
         == if events & enables != 0 then status | PERIODIC_PENDING else status
  {
  }

  /** Raised flags accumulate. */
  lemma StatusChains(s: Rtc, t: Rtc, u: Rtc, a: bv8, b: bv8, edgeA: bool, edgeB: bool)
    requires StatusFollows(s, t, a, edgeA) && StatusFollows(t, u, b, edgeB)
    requires s.alternate[INTERRUPT_CONTROL_0] == t.alternate[INTERRUPT_CONTROL_0]
    ensures StatusFollows(s, u, a | b, edgeA || edgeB)
  {
    hide Pending;
    PendingJoins(s.registers[MAIN_STATUS], a, b, edgeA, edgeB, s.alternate[INTERRUPT_CONTROL_0]);
    assert s.registers[PERIODIC_FLAG] | a | b == s.registers[PERIODIC_FLAG] | (a | b);
  }

  lemma PendingJoins(status: bv8, a: bv8, b: bv8, edgeA: bool, edgeB: bool, enables: bv8)
    ensures Pending(Pending(status, a, enables, edgeA), b, enables, edgeB)
         == Pending(status, a | b, enables, edgeA || edgeB)
  {
    assert (a | b) & enables == (a & enables) | (b & enables);
    assert (a | b) & enables != 0 <==> a & enables != 0 || b & enables != 0;
  }

  lemma SameConfigChains(s: Rtc, t: Rtc, u: Rtc)
    requires SameConfig(s, t) && SameConfig(t, u)
    ensures SameConfig(s, u) && Mode12(s) == Mode12(u) && TimeSaveEnabled(s) == TimeSaveEnabled(u)
  {
    SameModes(s, t);
    SameModes(t, u);
    OutsideClock(s, t, TIME_SAVE_CONTROL);
    OutsideClock(t, u, TIME_SAVE_CONTROL);
    hide Mode12, ClockBits, TimeSaveEnabled;
  }

  /** Changing only status registers and bookkeeping keeps the configuration. */
  lemma UntouchedConfig(s: Rtc, t: Rtc)
    requires forall r: nat :: r < 32 && !IsTouched(r) ==> t.registers[r] == s.registers[r]
    requires t.alternate == s.alternate && t.prescalerPhase == s.prescalerPhase
    requires t.oscillatorFailed == s.oscillatorFailed && t.singleSupply == s.singleSupply
    ensures SameConfig(s, t)
  {
    hide ClockBits;
  }

  lemma RestConfig(s: Rtc, t: Rtc)
    requires SameRest(s, t)
    ensures SameConfig(s, t)
    ensures forall r: nat :: r < 32 && IsTouched(r) ==> t.registers[r] == s.registers[r]
  {
    forall r: nat | r < 32 && IsTouched(r)
      ensures t.registers[r] == s.registers[r]
    {
      assert AgreeOutside(s.registers[r], t.registers[r], ClockBits(r, Mode12(s)));
      NoMask(s.registers[r], t.registers[r]);
    }
  }

  // What one more second, or hundredth, adds

  lemma OneMoreSecond(s: Rtc, clock: ClockState, seconds: nat)
    requires clock.Valid()
    ensures SecondEvents(clock, seconds + 1)
         == SecondEvents(clock, seconds) | TickEvents(SecondsLater(clock, seconds + 1))
    ensures AlarmEdge(s, clock, seconds + 1)
        <==> AlarmEdge(s, clock, seconds) || (!FlagAfter(s, clock, seconds) && AlarmAfter(s, clock, seconds + 1))
  {
    var next := SecondsLater(clock, seconds + 1);
    assert TenSecondsPassed(clock, seconds + 1) <==> TenSecondsPassed(clock, seconds) || OnTenSeconds(next);
    assert MinutePassed(clock, seconds + 1) <==> MinutePassed(clock, seconds) || OnMinute(next);
  }

  lemma OneMoreHundredth(clock: ClockState, hundredths: nat, value: nat, hundreds: nat)
    requires clock.hundredths + hundredths + 1 == 100 * hundreds + value
    ensures HundredMillisecondsPassed(clock, hundredths + 1)
        <==> HundredMillisecondsPassed(clock, hundredths) || value % 10 == 0
  {
    var count := clock.hundredths + hundredths + 1;
    assert IsMultiple(count, 10) <==> value % 10 == 0;
    assert HundredMillisecondsPassed(clock, hundredths + 1)
      <==> HundredMillisecondsPassed(clock, hundredths) || IsMultiple(count, 10);
  }

  // The stepper

  lemma SavesKeep(s: Rtc, t: Rtc, u: Rtc, copied: bool)
    requires SavesFollow(s, t, copied)
    requires forall r: nat :: SECONDS_SAVE <= r <= MONTH_SAVE || SECONDS <= r <= MONTH ==>
               u.registers[r] == t.registers[r]
    ensures SavesFollow(s, u, copied)
  {
    hide CounterMask, TimeSaveEnabled;
  }

  lemma ShowsKeeps(s: Rtc, t: Rtc, clock: ClockState)
    requires Shows(s, clock) && t.alternate == s.alternate
    requires forall r: nat :: IsCounter(r) ==> t.registers[r] == s.registers[r]
    ensures Shows(t, clock)
  {
    hide Holds, HoldsHour;
  }

  /** Raising events after a change that reached some state without them. */
  lemma RaiseReaches(s: Rtc, clock: ClockState, milliseconds: nat, hundredths: nat, seconds: nat,
                     t: Rtc, events: bv8, a: bv8)
    requires clock.Valid()
    requires Shown(s, clock, milliseconds, hundredths, seconds, t)
    requires SameConfig(s, t) && SavesFollow(s, t, seconds > 0)
    requires StatusFollows(s, t, a, AlarmEdge(s, clock, seconds))
    requires t.alarmMatchActive == FlagAfter(s, clock, seconds)
    requires a | events == EventsDuring(clock, milliseconds, hundredths, seconds)
    ensures Reached(s, clock, milliseconds, hundredths, seconds, RaisePeriodicEvents(t, events))
  {
    hide SameConfig, SavesFollow, StatusFollows, EventsDuring, AlarmEdge, AlarmAfter, FlagAfter, Shows, SecondsLater, RaisePeriodicEvents;
    var u := RaisePeriodicEvents(t, events);
    RaiseFollows(t, events);
    UntouchedConfig(t, u);
    SameConfigChains(s, t, u);
    SavesKeep(s, t, u, seconds > 0);
    var shown := SecondsLater(clock, seconds).(hundredths := clock.hundredths + hundredths - 100 * seconds);
    ShowsKeeps(t, u, shown);
    SameInterrupts(s, t);
    StatusChains(s, t, u, a, events, AlarmEdge(s, clock, seconds), false);
  }

  lemma SameInterrupts(s: Rtc, t: Rtc)
    requires SameConfig(s, t)
    ensures s.alternate[INTERRUPT_CONTROL_0] == t.alternate[INTERRUPT_CONTROL_0]
  {
  }

  lemma EventsWithinHundredth(clock: ClockState, milliseconds: nat, hundredths: nat, seconds: nat)
    ensures EventsDuring(clock, milliseconds, hundredths, seconds) | PERIODIC_MILLISECOND
         == EventsDuring(clock, milliseconds + 1, hundredths, seconds)
  {
    hide SecondEvents, HundredMillisecondsPassed;
  }

  /** The events of a hundredth that leaves `value` in its counter. */
  function HundredthEvents(value: nat): bv8 {
    PERIODIC_MILLISECOND | PERIODIC_TEN_MILLISECONDS
    | (if value % 10 == 0 then PERIODIC_HUNDRED_MILLISECONDS else 0)
  }

  lemma EventsWithinSecond(clock: ClockState, milliseconds: nat, hundredths: nat, seconds: nat, value: nat)
    requires clock.hundredths + hundredths + 1 == 100 * seconds + value
    ensures EventsDuring(clock, milliseconds, hundredths, seconds) | HundredthEvents(value)
         == EventsDuring(clock, milliseconds + 1, hundredths + 1, seconds)
  {
    OneMoreHundredth(clock, hundredths, value, seconds);
    hide SecondEvents, HundredMillisecondsPassed;
  }

  lemma EventsOverSecond(s: Rtc, clock: ClockState, milliseconds: nat, hundredths: nat, seconds: nat)
    requires clock.Valid() && clock.hundredths + hundredths == 100 * seconds + 99
    ensures EventsDuring(clock, milliseconds, hundredths, seconds)
            | (HundredthEvents(0) | TickEvents(SecondsLater(clock, seconds + 1)))
         == EventsDuring(clock, milliseconds + 1, hundredths + 1, seconds + 1)
  {
    OneMoreHundredth(clock, hundredths, 0, seconds + 1);
    OneMoreSecond(s, clock, seconds);
    hide SecondEvents, HundredMillisecondsPassed, TickEvents, SecondsLater;
  }

  lemma StepWithinHundredth(s: Rtc, clock: ClockState, milliseconds: nat, hundredths: nat, seconds: nat, t: Rtc)
    requires clock.Valid() && Reached(s, clock, milliseconds, hundredths, seconds, t)
    requires t.millisecond < 9
    ensures Reached(s, clock, milliseconds + 1, hundredths, seconds, AdvanceMillisecond(t))
  {
    hide SameConfig, SavesFollow, StatusFollows, AlarmEdge, AlarmAfter, FlagAfter, Shows, SecondsLater, RaisePeriodicEvents,
      EventsDuring;
    var u := t.(millisecond := t.millisecond + 1);
    UntouchedConfig(t, u);
    SameConfigChains(s, t, u);
    SavesKeep(s, t, u, seconds > 0);
    ShowsKeeps(t, u, SecondsLater(clock, seconds).(hundredths := clock.hundredths + hundredths - 100 * seconds));
    var before := EventsDuring(clock, milliseconds, hundredths, seconds);
    StatusKeeps(s, t, u, before, AlarmEdge(s, clock, seconds));
    EventsWithinHundredth(clock, milliseconds, hundredths, seconds);
    RaiseReaches(s, clock, milliseconds + 1, hundredths, seconds, u, PERIODIC_MILLISECOND, before);
  }

  lemma StatusKeeps(s: Rtc, t: Rtc, u: Rtc, events: bv8, edge: bool)
    requires StatusFollows(s, t, events, edge)
    requires u.registers[MAIN_STATUS] == t.registers[MAIN_STATUS]
    requires u.registers[PERIODIC_FLAG] == t.registers[PERIODIC_FLAG]
    ensures StatusFollows(s, u, events, edge)
  {
  }

  /** The hundredths counter moves on, and nothing else does. */
  lemma HundredthMoves(t: Rtc, shown: ClockState) returns (u: Rtc)
    requires Shows(t, shown)
    ensures var next := CountUp(shown.hundredths, 100);
            && IncrementBcd(t, HUNDREDTHS, 0xff, 0, 99) == Incremented(u, next, next == 0)
            && Shows(u, shown.(hundredths := next))
    ensures SameRest(t, u)
    ensures forall r: nat :: r < 32 && r != HUNDREDTHS ==> u.registers[r] == t.registers[r]
  {
    hide Holds, HoldsHour, LeapPhase, Mode12, SameRest, ShowsDate, IncrementBcd;
    u := IncrementMoves(t, HUNDREDTHS, 0xff, 0, 99, shown.hundredths, CountUp(shown.hundredths, 100));
    PutKeepsTime(t, HUNDREDTHS, u.registers[HUNDREDTHS]);
    PutKeepsDate(t, HUNDREDTHS, u.registers[HUNDREDTHS], shown.date);
  }

  lemma ReachedParts(s: Rtc, clock: ClockState, milliseconds: nat, hundredths: nat, seconds: nat, t: Rtc)
    returns (value: nat)
    requires clock.Valid() && Reached(s, clock, milliseconds, hundredths, seconds, t)
    ensures clock.hundredths + hundredths == 100 * seconds + value
    ensures Shows(t, SecondsLater(clock, seconds).(hundredths := value)) && value < 100
    ensures s.millisecond + milliseconds == 10 * hundredths + t.millisecond
    ensures SameConfig(s, t) && SavesFollow(s, t, seconds > 0)
    ensures StatusFollows(s, t, EventsDuring(clock, milliseconds, hundredths, seconds), AlarmEdge(s, clock, seconds))
    ensures t.alarmMatchActive == FlagAfter(s, clock, seconds)
  {
    hide Shows, SecondsLater, SameConfig, SavesFollow, StatusFollows, EventsDuring, AlarmEdge, FlagAfter;
    value := clock.hundredths + hundredths - 100 * seconds;
  }

  lemma ShownHundredth(s: Rtc, clock: ClockState, milliseconds: nat, hundredths: nat, seconds: nat, t: Rtc, value: nat)
    requires clock.Valid() && t.millisecond < 10 && value < 100
    requires s.millisecond + milliseconds == 10 * hundredths + t.millisecond
    requires clock.hundredths + hundredths == 100 * seconds + value
    requires Shows(t, SecondsLater(clock, seconds).(hundredths := value))
    ensures Shown(s, clock, milliseconds, hundredths, seconds, t)
  {
  }

  lemma StepWithinSecond(s: Rtc, clock: ClockState, milliseconds: nat, hundredths: nat, seconds: nat, t: Rtc)
    requires clock.Valid() && Reached(s, clock, milliseconds, hundredths, seconds, t)
    requires t.millisecond == 9 && clock.hundredths + hundredths - 100 * seconds < 99
    ensures Reached(s, clock, milliseconds + 1, hundredths + 1, seconds, AdvanceMillisecond(t))
  {
    hide *;
    var later := SecondsLater(clock, seconds);
    var before := EventsDuring(clock, milliseconds, hundredths, seconds);
    var value := ReachedParts(s, clock, milliseconds, hundredths, seconds, t);
    CountUpOnce(value, 100);
    var u := HundredthStep(t, later.(hundredths := value), value + 1);
    SameConfigChains(s, t, u);
    HundredthKeeps(s, t, u, seconds > 0, before, AlarmEdge(s, clock, seconds));
    EventsWithinSecond(clock, milliseconds, hundredths, seconds, value + 1);
    ShownHundredth(s, clock, milliseconds + 1, hundredths + 1, seconds, u, value + 1);
    RaiseReaches(s, clock, milliseconds + 1, hundredths + 1, seconds, u, HundredthEvents(value + 1), before);
  }

  ghost predicate OnlyHundredth(t: Rtc, u: Rtc) {
    forall r: nat :: r < 32 && r != HUNDREDTHS ==> u.registers[r] == t.registers[r]
  }

  lemma HundredthKeeps(s: Rtc, t: Rtc, u: Rtc, copied: bool, events: bv8, edge: bool)
    requires OnlyHundredth(t, u) && SavesFollow(s, t, copied) && StatusFollows(s, t, events, edge)
    ensures SavesFollow(s, u, copied) && StatusFollows(s, u, events, edge)
  {
    SavesKeep(s, t, u, copied);
    StatusKeeps(s, t, u, events, edge);
  }

  lemma CountUpOnce(value: nat, modulus: nat)
    ensures CountUp(value, modulus) == if value + 1 == modulus then 0 else value + 1
  {
  }

  /** A step that moves the hundredths counter, split before it raises its events. */
  lemma HundredthStep(t: Rtc, shown: ClockState, next: nat) returns (u: Rtc)
    requires Shows(t, shown) && t.millisecond == 9 && next == CountUp(shown.hundredths, 100)
    ensures Shows(u, shown.(hundredths := next))
    ensures next != 0 ==> AdvanceMillisecond(t) == RaisePeriodicEvents(u, HundredthEvents(next))
    ensures next == 0 ==>
              AdvanceMillisecond(t) == RaisePeriodicEvents(AdvanceSecond(u).0, HundredthEvents(0) | AdvanceSecond(u).1)
    ensures SameConfig(t, u) && u.millisecond == 0 && u.alarmMatchActive == t.alarmMatchActive
    ensures OnlyHundredth(t, u)
  {
    hide SameConfig, Shows, RaisePeriodicEvents, IncrementBcd, SameRest, AdvanceSecond;
    var t0 := t.(millisecond := 0);
    ShowsKeeps(t, t0, shown);
    u := HundredthMoves(t0, shown);
    UntouchedConfig(t, t0);
    RestConfig(t0, u);
    SameConfigChains(t, t0, u);
    RestFields(t0, u);
  }

  /** A second, split before it raises its events. */
  lemma SecondStep(s: Rtc, u: Rtc, shown: ClockState) returns (v: Rtc)
    requires Shows(u, shown) && SameConfig(s, u)
    ensures AdvanceSecond(u) == (v, TickEvents(NextSecond(shown)))
    ensures Shows(v, NextSecond(shown)) && SameConfig(u, v) && SavesFollow(u, v, true)
    ensures v.millisecond == u.millisecond
    ensures v.alarmMatchActive == AlarmMatchesAt(s, NextSecond(shown))
    ensures StatusFollows(u, v, 0, v.alarmMatchActive && !u.alarmMatchActive)
  {
    hide SameConfig, Shows, SameRest, NextSecond, TickEvents, FinishClockChange, TickCounters, CurrentAlarmMatches,
      AdvanceSecond, AlarmMatchesAt, SavesFollow, Pending;
    TickCountersMoves(u, shown);
    var w := TickCounters(u);
    v := FinishClockChange(w);
    FinishFollows(w);
    RestConfig(u, w);
    RestFields(u, w);
    UntouchedConfig(w, v);
    SameConfigChains(u, w, v);
    ShowsKeeps(w, v, NextSecond(shown));
    SameConfigChains(s, u, w);
    AlarmShown(s, w, NextSecond(shown));
    SavesOfTick(u, w, v);
    assert w.registers[MAIN_STATUS] == u.registers[MAIN_STATUS] && w.registers[PERIODIC_FLAG] == u.registers[PERIODIC_FLAG];
    SameInterrupts(u, w);
  }

  /** The copies read the counters they were made from. */
  lemma SavesOfTick(u: Rtc, w: Rtc, v: Rtc)
    requires SavesFollow(w, v, true)
    requires forall r: nat :: r < 32 && IsTouched(r) ==> w.registers[r] == u.registers[r]
    requires SameConfig(u, w)
    ensures SavesFollow(u, v, true)
  {
  }

  lemma RestFields(s: Rtc, t: Rtc)
    requires SameRest(s, t)
    ensures t.millisecond == s.millisecond && t.alarmMatchActive == s.alarmMatchActive
  {
  }

  lemma NextSecondOfShown(s: Rtc, clock: ClockState, seconds: nat, shown: ClockState)
    requires clock.Valid() && shown == SecondsLater(clock, seconds).(hundredths := 0)
    ensures NextSecond(shown) == SecondsLater(clock, seconds + 1).(hundredths := 0)
    ensures AlarmMatchesAt(s, NextSecond(shown)) == AlarmAfter(s, clock, seconds + 1)
    ensures TickEvents(NextSecond(shown)) == TickEvents(SecondsLater(clock, seconds + 1))
  {
    hide AlarmMask;
    var next := SecondsLater(clock, seconds + 1);
    forall bit: nat | bit < 6
      ensures AlarmBitMatches(s, NextSecond(shown), bit) == AlarmBitMatches(s, next, bit)
    {
      hide EncodeBcd, EncodeHour, AlarmByteMatches, Mode12;
    }
    hide AlarmBitMatches;
  }

  /** A new copy hides an old one. */
  lemma SavesAgain(s: Rtc, u: Rtc, v: Rtc, copied: bool)
    requires SavesFollow(s, u, copied) && SavesFollow(u, v, true) && SameConfig(s, u)
    ensures SavesFollow(s, v, true)
  {
    SameConfigChains(s, s, u);
    forall save: nat | SECONDS_SAVE <= save <= MONTH_SAVE
      ensures v.registers[save] == if TimeSaveEnabled(s) then SavedByte(s, v, save) else s.registers[save]
    {
      hide CounterMask, TimeSaveEnabled, Mode12, SameConfig;
      var source := save - SECONDS_SAVE + SECONDS;
      SavedTwice(s.registers[save], u.registers[source], v.registers[source], CounterMask(source, Mode12(s)));
    }
  }

  lemma StatusOfSecond(s: Rtc, clock: ClockState, seconds: nat, u: Rtc, v: Rtc, events: bv8)
    requires clock.Valid() && SameConfig(s, u)
    requires StatusFollows(s, u, events, AlarmEdge(s, clock, seconds))
    requires u.alarmMatchActive == FlagAfter(s, clock, seconds)
    requires v.alarmMatchActive == AlarmAfter(s, clock, seconds + 1)
    requires StatusFollows(u, v, 0, v.alarmMatchActive && !u.alarmMatchActive)
    ensures StatusFollows(s, v, events, AlarmEdge(s, clock, seconds + 1))
  {
    OneMoreSecond(s, clock, seconds);
    hide SameConfig, StatusFollows, AlarmEdge, AlarmAfter, FlagAfter;
    SameInterrupts(s, u);
    StatusChains(s, u, v, events, 0, AlarmEdge(s, clock, seconds), v.alarmMatchActive && !u.alarmMatchActive);
    assert events | 0 == events;
  }

  /** A step over a second, split before it raises its events. */
  lemma OverSecond(s: Rtc, clock: ClockState, hundredths: nat, seconds: nat, t: Rtc, before: bv8) returns (v: Rtc)
    requires clock.Valid() && t.millisecond == 9
    requires SameConfig(s, t) && SavesFollow(s, t, seconds > 0)
    requires StatusFollows(s, t, before, AlarmEdge(s, clock, seconds))
    requires t.alarmMatchActive == FlagAfter(s, clock, seconds)
    requires Shows(t, SecondsLater(clock, seconds).(hundredths := 99))
    ensures v.millisecond == 0 && Shows(v, SecondsLater(clock, seconds + 1).(hundredths := 0))
    ensures SameConfig(s, v) && SavesFollow(s, v, true)
    ensures StatusFollows(s, v, before, AlarmEdge(s, clock, seconds + 1))
    ensures v.alarmMatchActive == AlarmAfter(s, clock, seconds + 1)
    ensures AdvanceMillisecond(t)
         == RaisePeriodicEvents(v, HundredthEvents(0) | TickEvents(SecondsLater(clock, seconds + 1)))
  {
    hide *;
    var later := SecondsLater(clock, seconds);
    CountUpOnce(99, 100);
    var u := HundredthStep(t, later.(hundredths := 99), 0);
    SameConfigChains(s, t, u);
    HundredthKeeps(s, t, u, seconds > 0, before, AlarmEdge(s, clock, seconds));
    v := SecondStep(s, u, later.(hundredths := 0));
    NextSecondOfShown(s, clock, seconds, later.(hundredths := 0));
    SameConfigChains(s, u, v);
    SavesAgain(s, u, v, seconds > 0);
    StatusOfSecond(s, clock, seconds, u, v, before);
  }

  lemma StepOverSecond(s: Rtc, clock: ClockState, milliseconds: nat, hundredths: nat, seconds: nat, t: Rtc)
    requires clock.Valid() && Reached(s, clock, milliseconds, hundredths, seconds, t)
    requires t.millisecond == 9 && clock.hundredths + hundredths - 100 * seconds == 99
    ensures Reached(s, clock, milliseconds + 1, hundredths + 1, seconds + 1, AdvanceMillisecond(t))
  {
    hide Shows, SameConfig, SavesFollow, StatusFollows, EventsDuring, AlarmEdge, AlarmAfter, FlagAfter, SecondsLater, TickEvents,
      HundredthEvents, RaisePeriodicEvents, AdvanceMillisecond;
    var before := EventsDuring(clock, milliseconds, hundredths, seconds);
    var v := OverSecond(s, clock, hundredths, seconds, t, before);
    EventsOverSecond(s, clock, milliseconds, hundredths, seconds);
    FlagIsMatch(s, clock, seconds + 1);
    RaiseReaches(s, clock, milliseconds + 1, hundredths + 1, seconds + 1, v,
                 HundredthEvents(0) | TickEvents(SecondsLater(clock, seconds + 1)), before);
  }

  /** A decodable clock with its millisecond where every run keeps it. */
  predicate Regular(s: Rtc) {
    s.millisecond < 10 && DecodeClock(s).Some?
  }

  /** The alarm flag is not up without a match; every run keeps it equal to the match. */
  predicate FlagHonest(s: Rtc) {
    s.alarmMatchActive ==> CurrentAlarmMatches(s)
  }

  lemma StartReached(s: Rtc, clock: ClockState)
    requires Regular(s) && DecodeClock(s) == Some(clock)
    ensures Reached(s, clock, 0, 0, 0, s)
  {
    DecodesIffShows(s, clock);
    hide Shows, DecodeClock, AlarmMatchesAt, CurrentAlarmMatches, AlarmEdge;
    UntouchedConfig(s, s);
    StartStatus(s);
    NoEvents(s, clock);
    hide StatusFollows;
  }

  lemma StartStatus(s: Rtc)
    ensures StatusFollows(s, s, 0, false)
  {
    OnlyEdge(s.registers[MAIN_STATUS], s.registers[PERIODIC_FLAG], s.alternate[INTERRUPT_CONTROL_0]);
  }

  lemma NoEvents(s: Rtc, clock: ClockState)
    requires clock.Valid()
    ensures EventsDuring(clock, 0, 0, 0) == 0 && !AlarmEdge(s, clock, 0)
  {
  }

  /** Wherever the stepper gets to is where `Reached` says. */
  lemma {:induction false} StepperReaches(s: Rtc, clock: ClockState, milliseconds: nat)
    returns (hundredths: nat, seconds: nat)
    requires Regular(s) && DecodeClock(s) == Some(clock)
    ensures Reached(s, clock, milliseconds, hundredths, seconds, AdvanceMilliseconds(s, milliseconds))
    decreases milliseconds
  {
    hide Regular, DecodeClock, AdvanceMillisecond, CurrentAlarmMatches,
      Shows, SameConfig, SavesFollow, StatusFollows, EventsDuring, AlarmEdge, AlarmAfter, FlagAfter, SecondsLater;
    if milliseconds == 0 {
      StartReached(s, clock);
      hundredths, seconds := 0, 0;
    } else {
      hundredths, seconds := StepperReaches(s, clock, milliseconds - 1);
      var t := AdvanceMilliseconds(s, milliseconds - 1);
      hundredths, seconds := OneStep(s, clock, milliseconds - 1, hundredths, seconds, t);
    }
  }

  lemma OneStep(s: Rtc, clock: ClockState, milliseconds: nat, hundredths: nat, seconds: nat, t: Rtc)
    returns (nextHundredths: nat, nextSeconds: nat)
    requires clock.Valid() && Reached(s, clock, milliseconds, hundredths, seconds, t)
    ensures Reached(s, clock, milliseconds + 1, nextHundredths, nextSeconds, AdvanceMillisecond(t))
  {
    hide Shows, SameConfig, SavesFollow, StatusFollows, EventsDuring, AlarmEdge, AlarmAfter, FlagAfter, SecondsLater,
      AdvanceMillisecond;
    if t.millisecond < 9 {
      StepWithinHundredth(s, clock, milliseconds, hundredths, seconds, t);
      nextHundredths, nextSeconds := hundredths, seconds;
    } else if clock.hundredths + hundredths - 100 * seconds < 99 {
      StepWithinSecond(s, clock, milliseconds, hundredths, seconds, t);
      nextHundredths, nextSeconds := hundredths + 1, seconds;
    } else {
      StepOverSecond(s, clock, milliseconds, hundredths, seconds, t);
      nextHundredths, nextSeconds := hundredths + 1, seconds + 1;
    }
  }
}
