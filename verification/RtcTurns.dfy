/**
 The stepper on any counters, decodable or not.  `MillisecondMoves` says what
 one millisecond does to the counters that hold numbers, `StepsUnseen` when a number
 of them leaves the whole clock as it was.
 */
module RtcTurns {
  import opened Options
  import opened Arithmetic
  import opened Bcd
  import opened Calendar
  import opened RtcState
  import opened RtcMotion
  import opened RtcReach
  import opened RtcRun
  import opened CounterView

  // What the counters hold

  function MonthOf(s: Rtc): Option<nat> {
    DecodeField(s.registers[MONTH], 0x1f, 1, 12)
  }

  function DateViewOf(s: Rtc): DateView {
    DateView(DecodeField(s.registers[DAY_OF_MONTH], 0x3f, 1, LastDay(MonthOf(s), LeapPhase(s))),
             MonthOf(s),
             DecodeField(s.registers[YEAR], 0xff, 0, 99),
             DecodeField(s.registers[DAY_OF_WEEK], 0x07, 1, 7),
             LeapPhase(s))
  }

  function ViewOf(s: Rtc): ClockView {
    ClockView(s.millisecond,
              DecodeField(s.registers[HUNDREDTHS], 0xff, 0, 99),
              DecodeField(s.registers[SECONDS], 0x7f, 0, 59),
              DecodeField(s.registers[MINUTES], 0x7f, 0, 59),
              DecodeHour(s.registers[HOURS], Mode12(s)),
              DateViewOf(s))
  }

  lemma ViewIsValid(s: Rtc)
    requires s.millisecond < 10
    ensures ViewOf(s).Valid()
  {
    DecodeHourBound(s.registers[HOURS], Mode12(s));
    hide DecodeHour, DecodeBcd, LastDay, Mode12;
  }

  /** The whole clock decodes exactly when every counter holds a number. */
  lemma DecodesIfAllHold(s: Rtc)
    ensures DecodeClock(s).Some? <==> ViewOf(s).AllHold()
  {
    hide DecodeField, DecodeHour, Mode12, LeapPhase;
  }

  lemma MonthLengthOf(s: Rtc)
    ensures DaysInCurrentMonth(s) == LastDay(MonthOf(s), LeapPhase(s))
  {
    hide DecodeBcd;
    LeapBits(s.alternate[REAL_TIME_MODE]);
  }

  /** A counter that holds no number keeps its byte. */
  predicate Frozen(s: Rtc, t: Rtc) {
    var v := ViewOf(s);
    && (v.hundredths.None? ==> t.registers[HUNDREDTHS] == s.registers[HUNDREDTHS])
    && (v.seconds.None? ==> t.registers[SECONDS] == s.registers[SECONDS])
    && (v.minutes.None? ==> t.registers[MINUTES] == s.registers[MINUTES])
    && (v.hour.None? ==> t.registers[HOURS] == s.registers[HOURS])
    && (v.date.day.None? ==> t.registers[DAY_OF_MONTH] == s.registers[DAY_OF_MONTH])
    && (v.date.month.None? ==> t.registers[MONTH] == s.registers[MONTH])
    && (v.date.year.None? ==> t.registers[YEAR] == s.registers[YEAR])
    && (v.date.weekday.None? ==> t.registers[DAY_OF_WEEK] == s.registers[DAY_OF_WEEK])
  }

  /** A counter that holds no number goes on holding none. */
  predicate StillNone(v: ClockView, w: ClockView) {
    && (v.hundredths.None? ==> w.hundredths.None?)
    && (v.seconds.None? ==> w.seconds.None?)
    && (v.minutes.None? ==> w.minutes.None?)
    && (v.hour.None? ==> w.hour.None?)
    && (v.date.day.None? ==> w.date.day.None?)
    && (v.date.month.None? ==> w.date.month.None?)
    && (v.date.year.None? ==> w.date.year.None?)
    && (v.date.weekday.None? ==> w.date.weekday.None?)
  }

  /** From one state to another that shows something given, by counts only. */
  ghost predicate Counted(s: Rtc, t: Rtc, v: ClockView) {
    ViewOf(t) == v && SameRest(s, t) && Frozen(s, t) && StillNone(ViewOf(s), v)
  }

  lemma CountedStays(s: Rtc)
    ensures Counted(s, s, ViewOf(s))
  {
    hide ViewOf, ClockBits;
  }

  lemma CountedChains(s: Rtc, t: Rtc, u: Rtc, v: ClockView)
    requires Counted(s, t, ViewOf(t)) && Counted(t, u, v)
    ensures Counted(s, u, v)
  {
    SameRestChains(s, t, u);
    hide ViewOf, SameRest;
  }

  // One count of one counter

  lemma FieldWithin(raw: bv8, mask: bv8, first: nat, last: nat)
    ensures Within(DecodeField(raw, mask, first, last), first, last)
  {
    hide DecodeBcd;
  }

  lemma NoCount(s: Rtc, register: nat, mask: bv8, first: nat, last: nat)
    requires register < 32 && first <= last < 100 && DecodeField(s.registers[register], mask, first, last).None?
    ensures IncrementBcd(s, register, mask, first, last) == Invalid && BumpBcd(s, register, mask, first, last) == s
    ensures s == Put(s, register, s.registers[register]) && SameRest(s, s)
  {
    hide DecodeField, ClockBits;
  }

  lemma BumpIs(s: Rtc, register: nat, mask: bv8, first: nat, last: nat, t: Rtc, next: nat, wrapped: bool)
    requires register < 32 && first <= last < 100
    requires IncrementBcd(s, register, mask, first, last) == Incremented(t, next, wrapped)
    ensures BumpBcd(s, register, mask, first, last) == t
  {
    hide IncrementBcd;
  }

  /** An increment, whether or not the counter holds a number. */
  lemma FieldMoves(s: Rtc, register: nat, mask: bv8, first: nat, last: nat) returns (t: Rtc)
    requires IsCounter(register) && mask == ClockBits(register, Mode12(s))
    requires first <= last < 100 && FieldFits(mask, last + 1)
    ensures t == BumpBcd(s, register, mask, first, last)
    ensures t == Put(s, register, t.registers[register])
    ensures var before := DecodeField(s.registers[register], mask, first, last);
            && DecodeField(t.registers[register], mask, first, last) == Up(before, first, last)
            && IncrementBcd(s, register, mask, first, last)
               == (if before.None? then Invalid else Incremented(t, Up(before, first, last).value, before == Some(last)))
            && (before.None? ==> t == s)
    ensures SameRest(s, t) && Mode12(t) == Mode12(s) && LeapPhase(t) == LeapPhase(s)
  {
    hide *;
    CounterExists(register);
    var before := DecodeField(s.registers[register], mask, first, last);
    FieldWithin(s.registers[register], mask, first, last);
    WithinMeans(before, first, last);
    if before.None? {
      NoCount(s, register, mask, first, last);
      t := s;
    } else {
      FieldRoundTrip(s.registers[register], mask, first, last, before.value);
      var next := if before.value == last then first else before.value + 1;
      t := IncrementMoves(s, register, mask, first, last, before.value, next);
      BumpIs(s, register, mask, first, last, t, next, before.value == last);
      FieldRoundTrip(t.registers[register], mask, first, last, next);
    }
  }

  lemma WithinMeans(counter: Option<nat>, first: nat, last: nat)
    requires Within(counter, first, last)
    ensures counter.Some? ==> first <= counter.value <= last
    ensures Up(counter, first, last)
         == if counter.None? then None else Some(if counter.value == last then first else counter.value + 1)
  {
  }

  // Days

  /** The first of a month is a day of every month. */
  lemma OneHolds(raw: bv8, last: nat, other: nat)
    requires DecodeField(raw, 0x3f, 1, last) == Some(1) && other >= 1
    ensures DecodeField(raw, 0x3f, 1, other) == Some(1)
  {
  }

  /** On the first of a month the other parts of the date can be set without the day. */
  lemma FirstOfMonth(s: Rtc, t: Rtc)
    requires DateViewOf(s).day == Some(1) && Mode12(s) == Mode12(t) && t.millisecond == s.millisecond
    requires forall r: nat :: IsCounter(r) && r != MONTH && r != YEAR ==> t.registers[r] == s.registers[r]
    ensures ViewOf(t) == ViewOf(s).(date := DateViewOf(s).(month := MonthOf(t), leap := LeapPhase(t),
                                                           year := DecodeField(t.registers[YEAR], 0xff, 0, 99)))
  {
    OneHolds(s.registers[DAY_OF_MONTH], LastDay(MonthOf(s), LeapPhase(s)), LastDay(MonthOf(t), LeapPhase(t)));
    hide DecodeField, DecodeHour, LeapPhase, Mode12, LastDay, MonthOf;
  }

  lemma MonthSteps(s: Rtc)
    requires DateViewOf(s).day == Some(1)
    ensures Counted(s, AdvanceMonth(s), ViewOf(s).(date := MonthUp(DateViewOf(s))))
  {
    hide DecodeHour, LeapPhase, IncrementBcd, Mode12, SameRest, NextLeapPhase, BumpBcd, DecodeField, LastDay;
    var s1 := FieldMoves(s, MONTH, 0x1f, 1, 12);
    FirstOfMonth(s, s1);
    if MonthOf(s) == Some(12) {
      var s2 := FieldMoves(s1, YEAR, 0xff, 0, 99);
      var t := NextLeapPhase(s2);
      NextLeapPhaseMoves(s2);
      SameModeAfter(s2, t);
      FirstOfMonth(s, t);
      SameRestChains(s, s1, s2);
      SameRestChains(s, s2, t);
    }
  }

  lemma SameModeAfter(s: Rtc, t: Rtc)
    requires SameRest(s, t)
    ensures Mode12(s) == Mode12(t) && t.millisecond == s.millisecond
  {
    SameModes(s, t);
  }

  /** The day and the weekday, before the month. */
  lemma DayCounts(s: Rtc, last: nat) returns (t: Rtc)
    requires last == LastDay(MonthOf(s), LeapPhase(s)) && DateViewOf(s).day.Some?
    ensures var d := DateViewOf(s);
            && AdvanceDay(s) == (if d.day == Some(last) then AdvanceMonth(t) else t)
            && Counted(s, t, ViewOf(s).(date := d.(day := Up(d.day, 1, last), weekday := Up(d.weekday, 1, 7))))
  {
    hide DecodeHour, LeapPhase, IncrementBcd, Mode12, SameRest, BumpBcd, DecodeField, AdvanceMonth, DaysInCurrentMonth,
      LastDay, Up;
    MonthLengthOf(s);
    var s1 := FieldMoves(s, DAY_OF_MONTH, 0x3f, 1, last);
    t := FieldMoves(s1, DAY_OF_WEEK, 0x07, 1, 7);
    SameRestChains(s, s1, t);
    UpKeepsNone(DateViewOf(s).weekday, 1, 7);
  }

  lemma UpKeepsNone(counter: Option<nat>, first: nat, last: nat)
    ensures counter.None? <==> Up(counter, first, last).None?
  {
  }

  lemma DaySteps(s: Rtc)
    ensures Counted(s, AdvanceDay(s), ViewOf(s).(date := DayUp(DateViewOf(s))))
  {
    var d := DateViewOf(s);
    var last := LastDay(MonthOf(s), LeapPhase(s));
    if d.day.None? {
      CountedStays(s);
      NoDay(s);
    } else {
      var t := DayCounts(s, last);
      hide AdvanceDay, AdvanceMonth, DecodeField, DecodeHour, LeapPhase, Mode12, LastDay, Counted, MonthUp;
      if d.day == Some(last) {
        MonthSteps(t);
        CountedChains(s, t, AdvanceMonth(t), ViewOf(t).(date := MonthUp(DateViewOf(t))));
      }
    }
  }

  lemma NoDay(s: Rtc)
    requires DateViewOf(s).day.None?
    ensures AdvanceDay(s) == s
  {
    MonthLengthOf(s);
    hide DaysInCurrentMonth, DecodeField, LastDay;
  }

  // Hours, minutes, seconds and hundredths

  /** A state with one of its counters below the days set. */
  lemma TimeCounterSet(s: Rtc, t: Rtc, register: nat)
    requires HUNDREDTHS <= register <= HOURS && t == Put(s, register, t.registers[register])
    ensures ViewOf(t)
         == ViewOf(s).(hundredths := DecodeField(t.registers[HUNDREDTHS], 0xff, 0, 99),
                       seconds := DecodeField(t.registers[SECONDS], 0x7f, 0, 59),
                       minutes := DecodeField(t.registers[MINUTES], 0x7f, 0, 59),
                       hour := DecodeHour(t.registers[HOURS], Mode12(s)))
    ensures forall r: nat :: r < 32 && r != register ==> t.registers[r] == s.registers[r]
  {
    hide DecodeField, DecodeHour, LastDay;
  }

  lemma PlainHourDecodes(raw: bv8)
    ensures DecodeHour(raw, false) == DecodeField(raw, 0x3f, 0, 23)
  {
  }

  lemma HourSet(s: Rtc, t: Rtc)
    requires t == Put(s, HOURS, t.registers[HOURS]) && SameRest(s, t)
    requires DecodeHour(t.registers[HOURS], Mode12(s)) == Up(ViewOf(s).hour, 0, 23)
    requires ViewOf(s).hour.None? ==> t == s
    ensures Counted(s, t, ViewOf(s).(hour := Up(ViewOf(s).hour, 0, 23)))
  {
    TimeCounterSet(s, t, HOURS);
    UpKeepsNone(ViewOf(s).hour, 0, 23);
    hide DecodeHour, Mode12, SameRest, DecodeField, Up, DateViewOf;
  }

  lemma HourCounts24(s: Rtc) returns (t: Rtc)
    requires !Mode12(s)
    ensures AdvanceHour(s) == if ViewOf(s).hour == Some(23) then AdvanceDay(t) else t
    ensures Counted(s, t, ViewOf(s).(hour := Up(ViewOf(s).hour, 0, 23)))
  {
    assert ClockBits(HOURS, false) == 0x3f;
    hide DecodeHour, LeapPhase, IncrementBcd, Mode12, SameRest, BumpBcd, DecodeField, AdvanceDay, Up, ClockBits, DateViewOf,
      Counted;
    t := FieldMoves(s, HOURS, 0x3f, 0, 23);
    PlainHourDecodes(s.registers[HOURS]);
    PlainHourDecodes(t.registers[HOURS]);
    HourSet(s, t);
  }

  lemma NoHour12(s: Rtc)
    requires DecodeHour(s.registers[HOURS], true).None?
    ensures Advance12HourCounter(s) == s
  {
    hide DecodeField;
  }

  lemma Hour12Moves(s: Rtc, hour: nat, next: nat) returns (t: Rtc)
    requires Mode12(s) && hour < 24 && DecodeHour(s.registers[HOURS], true) == Some(hour)
    requires next == if hour == 23 then 0 else hour + 1
    ensures Advance12HourCounter(s) == if hour == 23 then AdvanceDay(t) else t
    ensures t == Put(s, HOURS, t.registers[HOURS]) && SameRest(s, t)
    ensures DecodeHour(t.registers[HOURS], true) == Some(next)
  {
    var raw := s.registers[HOURS];
    var written := WithHour12(raw, HourDigits(next), next >= 12);
    assert ClockBits(HOURS, true) == 0x9f && IsCounter(HOURS);
    hide *;
    HourRoundTrip(raw, true, hour);
    HourParts(raw, hour);
    Advance12Writes(s, hour, next);
    WriteHour12(raw, next);
    HourRoundTrip(written, true, next);
    FieldWriteKeepsRest(s, HOURS, written);
    t := Put(s, HOURS, written);
    WrittenBits(s, HOURS, written);
  }

  lemma HourCounts12(s: Rtc) returns (t: Rtc)
    requires Mode12(s)
    ensures AdvanceHour(s) == if ViewOf(s).hour == Some(23) then AdvanceDay(t) else t
    ensures Counted(s, t, ViewOf(s).(hour := Up(ViewOf(s).hour, 0, 23)))
  {
    var hour := DecodeHour(s.registers[HOURS], true);
    DecodeHourBound(s.registers[HOURS], true);
    hide DecodeHour, AdvanceDay, Mode12, SameRest, DateViewOf, Advance12HourCounter, Counted, LeapPhase, DecodeField, ClockBits;
    if hour.None? {
      NoHour12(s);
      CountedStays(s);
      t := s;
    } else {
      t := Hour12Moves(s, hour.value, if hour.value == 23 then 0 else hour.value + 1);
      HourSet(s, t);
    }
  }

  lemma HourSteps(s: Rtc)
    ensures Counted(s, AdvanceHour(s), HourUp(ViewOf(s)))
  {
    var t;
    if Mode12(s) {
      t := HourCounts12(s);
    } else {
      t := HourCounts24(s);
    }
    hide AdvanceHour, AdvanceDay, DateViewOf, Counted, DayUp;
    if ViewOf(s).hour == Some(23) {
      DaySteps(t);
      CountedChains(s, t, AdvanceDay(t), ViewOf(t).(date := DayUp(DateViewOf(t))));
      DatePart(s);
      DatePart(t);
    }
    CountedShows(s, t);
  }

  lemma DatePart(s: Rtc)
    ensures ViewOf(s).date == DateViewOf(s)
  {
  }

  lemma CountedShows(s: Rtc, t: Rtc)
    ensures forall v :: Counted(s, t, v) ==> ViewOf(t) == v
  {
  }

  lemma MinuteSteps(s: Rtc)
    ensures Counted(s, AdvanceMinute(s), MinuteUp(ViewOf(s)))
  {
    hide DecodeHour, LeapPhase, IncrementBcd, Mode12, SameRest, BumpBcd, DecodeField, AdvanceHour, Up, DateViewOf, HourUp;
    var t := FieldMoves(s, MINUTES, 0x7f, 0, 59);
    TimeCounterSet(s, t, MINUTES);
    UpKeepsNone(ViewOf(s).minutes, 0, 59);
    assert Counted(s, t, ViewOf(s).(minutes := Up(ViewOf(s).minutes, 0, 59)));
    hide Counted;
    if ViewOf(s).minutes == Some(59) {
      HourSteps(t);
      CountedShows(s, t);
      CountedChains(s, t, AdvanceHour(t), HourUp(ViewOf(t)));
    }
  }

  lemma SecondSteps(s: Rtc)
    ensures Counted(s, TickCounters(s), SecondUp(ViewOf(s)))
    ensures AdvanceSecond(s) == (FinishClockChange(TickCounters(s)), SecondRaises(ViewOf(s).seconds))
  {
    hide DecodeHour, LeapPhase, IncrementBcd, Mode12, SameRest, BumpBcd, DecodeField, AdvanceMinute, Up, DateViewOf, MinuteUp,
      FinishClockChange;
    var t := FieldMoves(s, SECONDS, 0x7f, 0, 59);
    TimeCounterSet(s, t, SECONDS);
    UpKeepsNone(ViewOf(s).seconds, 0, 59);
    assert Counted(s, t, ViewOf(s).(seconds := Up(ViewOf(s).seconds, 0, 59)));
    hide Counted;
    if ViewOf(s).seconds == Some(59) {
      MinuteSteps(t);
      CountedShows(s, t);
      CountedChains(s, t, AdvanceMinute(t), MinuteUp(ViewOf(t)));
    }
  }

  // Events

  /** The events of a second, from what its counter holds before. */
  function SecondRaises(seconds: Option<nat>): bv8 {
    var next := Up(seconds, 0, 59);
    PERIODIC_SECOND
    | Flag(next.Some? && next.value % 10 == 0, PERIODIC_TEN_SECONDS)
    | Flag(seconds == Some(59), PERIODIC_MINUTE)
  }

  function HundredthRaises(v: ClockView): bv8 {
    var next := Up(v.hundredths, 0, 99);
    Flag(next.Some? && next.value % 10 == 0, PERIODIC_HUNDRED_MILLISECONDS)
    | (if v.hundredths == Some(99) then SecondRaises(v.seconds) else 0)
  }

  /** The events of the next millisecond. */
  function Raises(v: ClockView): bv8 {
    PERIODIC_MILLISECOND | (if v.millisecond == 9 then PERIODIC_TEN_MILLISECONDS | HundredthRaises(v) else 0)
  }

  /** The events that end a turn, which are all that a turn raises. */
  function TurnEvents(level: nat): bv8 {
    PERIODIC_MILLISECOND | PERIODIC_TEN_MILLISECONDS
    | (if level == 0 then 0 else PERIODIC_HUNDRED_MILLISECONDS | PERIODIC_SECOND)
    | (if level < 2 then 0 else PERIODIC_TEN_SECONDS | PERIODIC_MINUTE)
  }

  lemma RaisesAreOfTurn(v: ClockView)
    requires v.Valid()
    ensures Raises(v) | TurnEvents(TimeLevel(v)) == TurnEvents(TimeLevel(v))
    ensures Position(NextView(v)) == 0 ==> Raises(v) == TurnEvents(TimeLevel(v))
  {
    PositionMoves(v);
    if Position(NextView(v)) == 0 {
      LastPosition(v);
    }
    hide NextView, Position, LastDay;
  }

  /** At the end of a turn every counter below the gap wraps. */
  lemma LastPosition(v: ClockView)
    requires v.Valid() && CountUp(Position(v), Turn(TimeLevel(v))) == 0
    ensures v.millisecond == 9
    ensures TimeLevel(v) >= 1 ==> v.hundredths == Some(99)
    ensures TimeLevel(v) >= 2 ==> v.seconds == Some(59)
  {
    hide LastDay;
  }

  // One millisecond

  /** The copies change on their counters' bits only, and only when they are enabled. */
  ghost predicate SavesKept(s: Rtc, t: Rtc) {
    forall save: nat :: SECONDS_SAVE <= save <= MONTH_SAVE ==>
      && AgreeOutside(s.registers[save], t.registers[save], CounterMask(save - SECONDS_SAVE + SECONDS, Mode12(s)))
      && (!TimeSaveEnabled(s) ==> t.registers[save] == s.registers[save])
  }

  /** From one state to another that shows something given, by the passing of time. */
  ghost predicate Went(s: Rtc, t: Rtc, v: ClockView) {
    ViewOf(t) == v && SameConfig(s, t) && SavesKept(s, t) && Frozen(s, t) && StillNone(ViewOf(s), v)
  }

  lemma SavesKeptChains(s: Rtc, t: Rtc, u: Rtc)
    requires SavesKept(s, t) && SavesKept(t, u) && Mode12(s) == Mode12(t) && TimeSaveEnabled(s) == TimeSaveEnabled(t)
    ensures SavesKept(s, u)
  {
    hide CounterMask, Mode12, TimeSaveEnabled;
  }

  lemma WentChains(s: Rtc, t: Rtc, u: Rtc, v: ClockView)
    requires Went(s, t, ViewOf(t)) && Went(t, u, v)
    ensures Went(s, u, v)
  {
    SameConfigChains(s, s, t);
    SameConfigChains(s, t, u);
    hide ViewOf, SameConfig, SavesKept, Mode12, TimeSaveEnabled;
    SavesKeptChains(s, t, u);
  }

  lemma WentStays(s: Rtc)
    ensures Went(s, s, ViewOf(s))
  {
    UntouchedConfig(s, s);
    hide ViewOf, CounterMask, Mode12, SameConfig;
  }

  lemma CountedWent(s: Rtc, t: Rtc, v: ClockView)
    requires Counted(s, t, v)
    ensures Went(s, t, v) && t.alarmMatchActive == s.alarmMatchActive
    ensures StatusFollows(s, t, 0, false)
  {
    RestConfig(s, t);
    RestFields(s, t);
    hide ViewOf, SameConfig, SameRest, CounterMask, Mode12, Pending;
    OnlyEdge(s.registers[MAIN_STATUS], s.registers[PERIODIC_FLAG], s.alternate[INTERRUPT_CONTROL_0]);
  }

  /** What shows does not depend on the status registers and the copies. */
  lemma SameView(s: Rtc, t: Rtc)
    requires t.alternate == s.alternate && t.millisecond == s.millisecond
    requires forall r: nat :: r < 32 && !IsTouched(r) ==> t.registers[r] == s.registers[r]
    ensures ViewOf(t) == ViewOf(s)
    ensures Frozen(s, t) && StillNone(ViewOf(s), ViewOf(t))
  {
    hide DecodeField, DecodeHour, LastDay;
    assert Mode12(t) == Mode12(s) && LeapPhase(t) == LeapPhase(s);
    hide Mode12, LeapPhase;
  }

  lemma FinishWent(s: Rtc)
    ensures var t := FinishClockChange(s);
            && Went(s, t, ViewOf(s))
            && StatusFollows(s, t, 0, t.alarmMatchActive && !s.alarmMatchActive)
  {
    var t := FinishClockChange(s);
    FinishFollows(s);
    hide FinishClockChange, CurrentAlarmMatches, Pending, ViewOf, Frozen, StillNone, Mode12, CounterMask, TimeSaveEnabled,
      ClockBits;
    SameView(s, t);
    UntouchedConfig(s, t);
    forall save: nat | SECONDS_SAVE <= save <= MONTH_SAVE
      ensures AgreeOutside(s.registers[save], t.registers[save], CounterMask(save - SECONDS_SAVE + SECONDS, Mode12(s)))
    {
      var source := save - SECONDS_SAVE + SECONDS;
      MaskedWrite(s.registers[save], CounterMask(source, Mode12(s)), t.registers[source]);
    }
  }

  lemma SecondWent(s: Rtc)
    ensures var t := AdvanceSecond(s).0;
            && Went(s, t, SecondUp(ViewOf(s)))
            && StatusFollows(s, t, 0, t.alarmMatchActive && !s.alarmMatchActive)
    ensures AdvanceSecond(s).1 == SecondRaises(ViewOf(s).seconds)
  {
    hide *;
    var u := TickCounters(s);
    SecondSteps(s);
    CountedWent(s, u, SecondUp(ViewOf(s)));
    FinishWent(u);
    WentShows(s, u, SecondUp(ViewOf(s)));
    WentChains(s, u, FinishClockChange(u), ViewOf(u));
    WentInterrupts(s, u, SecondUp(ViewOf(s)));
    var t := FinishClockChange(u);
    StatusChains(s, u, t, 0, 0, false, t.alarmMatchActive && !u.alarmMatchActive);
    ZeroOrZero();
  }

  lemma ZeroOrZero()
    ensures 0 as bv8 | 0 == 0
  {
  }

  lemma WentShows(s: Rtc, t: Rtc, v: ClockView)
    requires Went(s, t, v)
    ensures ViewOf(t) == v && Went(s, t, ViewOf(t))
  {
  }

  lemma WentInterrupts(s: Rtc, t: Rtc, v: ClockView)
    requires Went(s, t, v)
    ensures s.alternate[INTERRUPT_CONTROL_0] == t.alternate[INTERRUPT_CONTROL_0]
  {
    SameInterrupts(s, t);
  }

  lemma HundredthCounts(s: Rtc) returns (t: Rtc)
    ensures Counted(s, t, ViewOf(s).(hundredths := Up(ViewOf(s).hundredths, 0, 99)))
    ensures AdvanceHundredth(s).0 == if ViewOf(s).hundredths == Some(99) then AdvanceSecond(t).0 else t
    ensures ViewOf(s).hundredths == Some(99) ==>
              AdvanceHundredth(s).1 == PERIODIC_HUNDRED_MILLISECONDS | AdvanceSecond(t).1
    ensures ViewOf(s).hundredths != Some(99) ==> AdvanceHundredth(s).1 == HundredthRaises(ViewOf(s))
  {
    hide DecodeHour, LeapPhase, IncrementBcd, Mode12, SameRest, BumpBcd, DecodeField, AdvanceSecond, Up, DateViewOf;
    t := FieldMoves(s, HUNDREDTHS, 0xff, 0, 99);
    TimeCounterSet(s, t, HUNDREDTHS);
    UpKeepsNone(ViewOf(s).hundredths, 0, 99);
    UpWraps(0, 99);
  }

  lemma UpWraps(first: nat, last: nat)
    ensures Up(Some(last), first, last) == Some(first)
  {
  }

  lemma HundredthWent(s: Rtc)
    ensures var t := AdvanceHundredth(s).0;
            && Went(s, t, HundredthUp(ViewOf(s)))
            && StatusFollows(s, t, 0, t.alarmMatchActive && !s.alarmMatchActive)
    ensures AdvanceHundredth(s).1 == HundredthRaises(ViewOf(s))
  {
    var v := ViewOf(s).(hundredths := Up(ViewOf(s).hundredths, 0, 99));
    var u := HundredthCounts(s);
    hide ViewOf, Counted, Went, AdvanceHundredth, AdvanceSecond, StatusFollows, SecondUp, SecondRaises;
    CountedWent(s, u, v);
    WentShows(s, u, v);
    if ViewOf(s).hundredths == Some(99) {
      SecondWent(u);
      var t := AdvanceSecond(u).0;
      WentChains(s, u, t, SecondUp(v));
      WentInterrupts(s, u, v);
      StatusChains(s, u, t, 0, 0, false, t.alarmMatchActive && !u.alarmMatchActive);
      ZeroOrZero();
    }
  }

  lemma RaiseWent(s: Rtc, events: bv8)
    ensures var t := RaisePeriodicEvents(s, events);
            Went(s, t, ViewOf(s)) && StatusFollows(s, t, events, false) && t.alarmMatchActive == s.alarmMatchActive
  {
    var t := RaisePeriodicEvents(s, events);
    RaiseFollows(s, events);
    hide RaisePeriodicEvents, Pending, ViewOf, Frozen, StillNone, Mode12, CounterMask, TimeSaveEnabled, ClockBits;
    SameView(s, t);
    UntouchedConfig(s, t);
  }

  lemma PrescalerWent(s: Rtc, millisecond: nat) returns (t: Rtc)
    ensures t == s.(millisecond := millisecond)
    ensures Went(s, t, ViewOf(s).(millisecond := millisecond)) && StatusFollows(s, t, 0, false)
    ensures t.alarmMatchActive == s.alarmMatchActive
  {
    t := s.(millisecond := millisecond);
    UntouchedConfig(s, t);
    StartStatus(s);
    assert SavesKept(s, t) by { hide CounterMask, Mode12; }
    assert Mode12(t) == Mode12(s) && LeapPhase(t) == LeapPhase(s);
    hide DecodeField, DecodeHour, LastDay, SameConfig, SavesKept, Mode12, LeapPhase, Pending;
  }

  lemma RaiseStep(s: Rtc, u: Rtc, v: ClockView, events: bv8)
    requires Went(s, u, v) && StatusFollows(s, u, 0, u.alarmMatchActive && !s.alarmMatchActive)
    ensures var t := RaisePeriodicEvents(u, events);
            Went(s, t, v) && StatusFollows(s, t, events, t.alarmMatchActive && !s.alarmMatchActive)
  {
    hide *;
    RaiseWent(u, events);
    WentShows(s, u, v);
    WentInterrupts(s, u, v);
    WentChains(s, u, RaisePeriodicEvents(u, events), v);
    StatusChains(s, u, RaisePeriodicEvents(u, events), 0, events, u.alarmMatchActive && !s.alarmMatchActive, false);
    OrWithZero(events);
  }

  lemma OrWithZero(events: bv8)
    ensures 0 | events == events
  {
  }

  /** A hundredth, before it raises its events. */
  lemma WholeHundredth(s: Rtc)
    ensures var u := AdvanceHundredth(s.(millisecond := 0));
            && Went(s, u.0, HundredthUp(ViewOf(s).(millisecond := 0)))
            && StatusFollows(s, u.0, 0, u.0.alarmMatchActive && !s.alarmMatchActive)
            && u.1 == HundredthRaises(ViewOf(s))
  {
    var s0 := PrescalerWent(s, 0);
    var v0 := ViewOf(s).(millisecond := 0);
    assert HundredthRaises(v0) == HundredthRaises(ViewOf(s));
    hide *;
    HundredthWent(s0);
    WentShows(s, s0, v0);
    WentInterrupts(s, s0, v0);
    var u := AdvanceHundredth(s0).0;
    WentChains(s, s0, u, HundredthUp(v0));
    StatusChains(s, s0, u, 0, 0, false, u.alarmMatchActive && !s0.alarmMatchActive);
    ZeroOrZero();
  }

  /** What one millisecond does, whatever the counters hold. */
  lemma MillisecondMoves(s: Rtc)
    requires s.millisecond < 10
    ensures var t := AdvanceMillisecond(s);
            && Went(s, t, NextView(ViewOf(s)))
            && StatusFollows(s, t, Raises(ViewOf(s)), t.alarmMatchActive && !s.alarmMatchActive)
  {
    if s.millisecond == 9 {
      WholeHundredth(s);
      hide Went, RaisePeriodicEvents, AdvanceHundredth, HundredthUp, HundredthRaises, StatusFollows, DateViewOf, DecodeField,
        DecodeHour, Mode12;
      var u := AdvanceHundredth(s.(millisecond := 0));
      RaiseStep(s, u.0, HundredthUp(ViewOf(s).(millisecond := 0)), Raises(ViewOf(s)));
    } else {
      var u := PrescalerWent(s, s.millisecond + 1);
      hide Went, RaisePeriodicEvents, HundredthUp, HundredthRaises, StatusFollows, DateViewOf, DecodeField, DecodeHour, Mode12;
      RaiseStep(s, u, ViewOf(s).(millisecond := s.millisecond + 1), Raises(ViewOf(s)));
    }
  }

  // Runs

  lemma MillisecondStays(t: Rtc, u: Rtc)
    requires ViewOf(t).Valid() && Went(t, u, NextView(ViewOf(t)))
    ensures u.millisecond < 10
  {
    WentShows(t, u, NextView(ViewOf(t)));
    PositionMoves(ViewOf(t));
    hide Went, NextView, Position;
    assert ViewOf(u).millisecond == u.millisecond;
  }

  lemma {:induction false} StepsWent(s: Rtc, milliseconds: nat)
    requires s.millisecond < 10
    ensures var t := AdvanceMilliseconds(s, milliseconds);
            && Went(s, t, ViewAfter(ViewOf(s), milliseconds))
            && t.millisecond < 10
  {
    hide Went, NextView, ViewOf, AdvanceMillisecond;
    if milliseconds == 0 {
      WentStays(s);
    } else {
      StepsWent(s, milliseconds - 1);
      var t := AdvanceMilliseconds(s, milliseconds - 1);
      StepWent(s, t, ViewAfter(ViewOf(s), milliseconds - 1));
    }
  }

  lemma StepWent(s: Rtc, t: Rtc, v: ClockView)
    requires Went(s, t, v) && t.millisecond < 10
    ensures Went(s, AdvanceMillisecond(t), NextView(v)) && AdvanceMillisecond(t).millisecond < 10
  {
    hide *;
    var u := AdvanceMillisecond(t);
    WentShows(s, t, v);
    MillisecondMoves(t);
    ViewIsValid(t);
    MillisecondStays(t, u);
    WentChains(s, t, u, NextView(v));
  }

  // Back to the same state

  lemma FieldDetermines(a: bv8, b: bv8, mask: bv8, first: nat, last: nat)
    requires AgreeOutside(a, b, mask) && last < 100
    requires DecodeField(a, mask, first, last) == DecodeField(b, mask, first, last)
    requires DecodeField(a, mask, first, last).None? ==> a == b
    ensures a == b
  {
    var field := DecodeField(a, mask, first, last);
    FieldWithin(a, mask, first, last);
    hide DecodeField;
    if field.Some? {
      FieldRoundTrip(a, mask, first, last, field.value);
      FieldRoundTrip(b, mask, first, last, field.value);
      hide EncodeBcd;
      SplitByte(a, b, mask);
    }
  }

  lemma HourDetermines(a: bv8, b: bv8, mode12: bool)
    requires AgreeOutside(a, b, HourMask(mode12)) && DecodeHour(a, mode12) == DecodeHour(b, mode12)
    requires DecodeHour(a, mode12).None? ==> a == b
    ensures a == b
  {
    var hour := DecodeHour(a, mode12);
    DecodeHourBound(a, mode12);
    hide DecodeHour, EncodeHour;
    if hour.Some? {
      HourRoundTrip(a, mode12, hour.value);
      HourRoundTrip(b, mode12, hour.value);
      SplitByte(a, b, HourMask(mode12));
    }
  }

  lemma CounterOutside(s: Rtc, t: Rtc, register: nat)
    requires SameConfig(s, t) && IsCounter(register)
    ensures AgreeOutside(s.registers[register], t.registers[register], CounterMask(register, Mode12(s)))
  {
    hide Mode12;
    assert !IsTouched(register) && register < 32;
    assert AgreeOutside(s.registers[register], t.registers[register], ClockBits(register, Mode12(s)));
  }

  lemma CountersBack(s: Rtc, t: Rtc)
    requires Went(s, t, ViewOf(s))
    ensures forall r: nat :: r < 32 && !IsTouched(r) ==> t.registers[r] == s.registers[r]
  {
    SameModes(s, t);
    var d := DateViewOf(s);
    assert DateViewOf(t) == d;
    forall r: nat | IsCounter(r)
      ensures AgreeOutside(s.registers[r], t.registers[r], CounterMask(r, Mode12(s)))
    {
      CounterOutside(s, t, r);
    }
    forall r: nat | r < 32 && !IsTouched(r) && !IsCounter(r)
      ensures t.registers[r] == s.registers[r]
    {
      OutsideClock(s, t, r);
    }
    hide DecodeField, DecodeHour, SameConfig, SavesKept, LastDay, Mode12, LeapPhase, AgreeOutside;
    FieldDetermines(s.registers[HUNDREDTHS], t.registers[HUNDREDTHS], 0xff, 0, 99);
    FieldDetermines(s.registers[SECONDS], t.registers[SECONDS], 0x7f, 0, 59);
    FieldDetermines(s.registers[MINUTES], t.registers[MINUTES], 0x7f, 0, 59);
    HourDetermines(s.registers[HOURS], t.registers[HOURS], Mode12(s));
    FieldDetermines(s.registers[DAY_OF_MONTH], t.registers[DAY_OF_MONTH], 0x3f, 1, LastDay(d.month, d.leap));
    FieldDetermines(s.registers[MONTH], t.registers[MONTH], 0x1f, 1, 12);
    FieldDetermines(s.registers[YEAR], t.registers[YEAR], 0xff, 0, 99);
    FieldDetermines(s.registers[DAY_OF_WEEK], t.registers[DAY_OF_WEEK], 0x07, 1, 7);
  }

  /** The copies follow the counters, so they are back when the counters are. */
  lemma SavesBack(s: Rtc, t: Rtc)
    requires SavesKept(s, t) && RunInvariant(s) && RunInvariant(t)
    requires t.alternate == s.alternate
    requires forall r: nat :: r < 32 && !IsTouched(r) ==> t.registers[r] == s.registers[r]
    ensures forall save: nat :: SECONDS_SAVE <= save <= MONTH_SAVE ==> t.registers[save] == s.registers[save]
  {
    assert TimeSaveEnabled(t) == TimeSaveEnabled(s) && Mode12(t) == Mode12(s);
    hide CounterMask, Mode12, TimeSaveEnabled, AlarmInSync;
    forall save: nat | SECONDS_SAVE <= save <= MONTH_SAVE
      ensures t.registers[save] == s.registers[save]
    {
      if TimeSaveEnabled(s) {
        var source := save - SECONDS_SAVE + SECONDS;
        assert SaveInSync(s, save) && SaveInSync(t, save);
        assert t.registers[source] == s.registers[source];
        SplitByte(s.registers[save], t.registers[save], CounterMask(source, Mode12(s)));
      }
    }
  }

  predicate SameStatusBytes(s: Rtc, t: Rtc) {
    t.registers[MAIN_STATUS] == s.registers[MAIN_STATUS] && t.registers[PERIODIC_FLAG] == s.registers[PERIODIC_FLAG]
  }

  /** Counters and status decide the whole state. */
  lemma WholeStateBack(s: Rtc, t: Rtc)
    requires Went(s, t, ViewOf(s)) && RunInvariant(s) && RunInvariant(t) && SameStatusBytes(s, t)
    ensures t == s
  {
    CountersBack(s, t);
    assert LeapPhase(t) == ViewOf(t).date.leap && LeapPhase(s) == ViewOf(s).date.leap;
    assert t.millisecond == ViewOf(t).millisecond && s.millisecond == ViewOf(s).millisecond;
    WentControl(s, t);
    hide ViewOf, Frozen, StillNone, SameConfig, LeapPhase, SaveInSync, CurrentAlarmMatches;
    SavesBack(s, t);
    hide SavesKept, SavesInSync;
    assert t.registers == s.registers;
    SameButStatus(s, t);
  }

  lemma WentControl(s: Rtc, t: Rtc)
    requires SameConfig(s, t) && LeapPhase(s) == LeapPhase(t)
    ensures t.alternate == s.alternate
    ensures t.prescalerPhase == s.prescalerPhase && t.oscillatorFailed == s.oscillatorFailed
    ensures t.singleSupply == s.singleSupply
  {
    SameRealTimeMode(s, s, t);
    assert s.alternate == [s.alternate[0], s.alternate[1], s.alternate[2], s.alternate[3]];
    assert t.alternate == [t.alternate[0], t.alternate[1], t.alternate[2], t.alternate[3]];
  }

  // The status bits of a run

  /** No status bit of the one is missing from the other. */
  predicate Below(s: Rtc, t: Rtc) {
    && BitsIn(s.registers[MAIN_STATUS], t.registers[MAIN_STATUS])
    && BitsIn(s.registers[PERIODIC_FLAG], t.registers[PERIODIC_FLAG])
  }

  predicate BitsIn(a: bv8, b: bv8) {
    a | b == b
  }

  lemma StatusGrows(s: Rtc, t: Rtc, events: bv8, edge: bool)
    requires StatusFollows(s, t, events, edge)
    ensures Below(s, t)
  {
    PendingGrows(s.registers[MAIN_STATUS], events, s.alternate[INTERRUPT_CONTROL_0], edge);
    OrGrows(s.registers[PERIODIC_FLAG], events);
    hide Pending;
  }

  lemma PendingGrows(status: bv8, events: bv8, enables: bv8, edge: bool)
    ensures status | Pending(status, events, enables, edge) == Pending(status, events, enables, edge)
  {
  }

  lemma OrGrows(a: bv8, b: bv8)
    ensures a | (a | b) == a | b
  {
  }

  lemma BelowChains(s: Rtc, t: Rtc, u: Rtc)
    requires Below(s, t) && Below(t, u)
    ensures Below(s, u)
  {
    hide BitsIn;
    OrChains(s.registers[MAIN_STATUS], t.registers[MAIN_STATUS], u.registers[MAIN_STATUS]);
    OrChains(s.registers[PERIODIC_FLAG], t.registers[PERIODIC_FLAG], u.registers[PERIODIC_FLAG]);
  }

  lemma OrChains(a: bv8, b: bv8, c: bv8)
    requires BitsIn(a, b) && BitsIn(b, c)
    ensures BitsIn(a, c)
  {
    assert a | c == a | (b | c) == (a | b) | c;
  }

  lemma BelowBoth(s: Rtc, t: Rtc)
    requires Below(s, t) && Below(t, s)
    ensures SameStatusBytes(s, t)
  {
    hide BitsIn;
    OrSwap(s.registers[MAIN_STATUS], t.registers[MAIN_STATUS]);
    OrSwap(s.registers[PERIODIC_FLAG], t.registers[PERIODIC_FLAG]);
  }

  lemma OrSwap(a: bv8, b: bv8)
    requires BitsIn(a, b) && BitsIn(b, a)
    ensures a == b
  {
  }

  lemma {:induction false} RunGrows(s: Rtc, i: nat, j: nat)
    requires s.millisecond < 10 && i <= j
    ensures Below(AdvanceMilliseconds(s, i), AdvanceMilliseconds(s, j))
    decreases j
  {
    hide Below, AdvanceMillisecond;
    if i == j {
      BelowItself(AdvanceMilliseconds(s, i));
    } else {
      RunGrows(s, i, j - 1);
      var t := AdvanceMilliseconds(s, j - 1);
      MillisecondBelow(s, j - 1, t);
      BelowChains(AdvanceMilliseconds(s, i), t, AdvanceMillisecond(t));
    }
  }

  lemma BelowItself(s: Rtc)
    ensures Below(s, s)
  {
  }

  lemma MillisecondBelow(s: Rtc, i: nat, t: Rtc)
    requires s.millisecond < 10 && t == AdvanceMilliseconds(s, i)
    ensures Below(t, AdvanceMillisecond(t))
  {
    hide *;
    StepsWent(s, i);
    MillisecondMoves(t);
    StatusGrows(t, AdvanceMillisecond(t), Raises(ViewOf(t)), AdvanceMillisecond(t).alarmMatchActive && !t.alarmMatchActive);
  }

  /** The alarm comes on at some millisecond of the interval. */
  ghost predicate AlarmComesOn(s: Rtc, milliseconds: nat) {
    exists i: nat :: i < milliseconds && AlarmComesOnAt(s, i)
  }

  predicate AlarmComesOnAt(s: Rtc, i: nat) {
    !CurrentAlarmMatches(AdvanceMilliseconds(s, i)) && CurrentAlarmMatches(AdvanceMilliseconds(s, i + 1))
  }

  /** Every status bit that a whole turn raises is up already. */
  predicate StatusFull(status: bv8, flags: bv8, enables: bv8, events: bv8) {
    flags | events == flags && (events & enables != 0 ==> status & PERIODIC_PENDING != 0)
  }

  /** Whole turns, and no status bit left to raise. */
  ghost predicate TurnsUnseen(s: Rtc, milliseconds: nat) {
    && TimeReturns(ViewOf(s), milliseconds)
    && StatusFull(s.registers[MAIN_STATUS], s.registers[PERIODIC_FLAG], s.alternate[INTERRUPT_CONTROL_0],
                  TurnEvents(TimeLevel(ViewOf(s))))
    && (AlarmComesOn(s, milliseconds) ==> s.registers[MAIN_STATUS] & ALARM_PENDING != 0)
  }

  /** A run stays in its turn. */
  lemma StaysInTurn(s: Rtc, i: nat)
    requires s.millisecond < 10
    ensures var t := AdvanceMilliseconds(s, i);
            && ViewOf(t) == ViewAfter(ViewOf(s), i) && ViewOf(t).Valid() && t.millisecond < 10
            && TimeLevel(ViewOf(t)) == TimeLevel(ViewOf(s))
            && t.alternate[INTERRUPT_CONTROL_0] == s.alternate[INTERRUPT_CONTROL_0]
  {
    ViewIsValid(s);
    var rounds := ViewRuns(ViewOf(s), i);
    StepsWent(s, i);
    var t := AdvanceMilliseconds(s, i);
    hide Went, ViewOf, Position, TimeLevel, AdvanceMilliseconds, ViewAfter;
    WentShows(s, t, ViewAfter(ViewOf(s), i));
    WentInterrupts(s, t, ViewOf(t));
  }

  /** A step's view of the turn it belongs to. */
  lemma StepOfRun(s: Rtc, i: nat)
    requires RunInvariant(s)
    ensures var t, u := AdvanceMilliseconds(s, i), AdvanceMilliseconds(s, i + 1);
            && TimeLevel(ViewOf(t)) == TimeLevel(ViewOf(s))
            && t.alternate[INTERRUPT_CONTROL_0] == s.alternate[INTERRUPT_CONTROL_0]
            && StatusFollows(t, u, Raises(ViewOf(t)), AlarmComesOnAt(s, i))
            && ViewOf(t) == ViewAfter(ViewOf(s), i) && ViewOf(t).Valid()
            && ViewOf(u) == NextView(ViewOf(t))
  {
    hide Went, NextView, ViewOf, AdvanceMillisecond, Position, StatusFollows, TimeLevel, CurrentAlarmMatches, Raises, ViewAfter;
    StaysInTurn(s, i);
    var t := AdvanceMilliseconds(s, i);
    MillisecondMoves(t);
    MillisecondsKeep(s, i);
    MillisecondsKeep(s, i + 1);
    hide RunInvariant;
    InSync(t);
    InSync(AdvanceMilliseconds(s, i + 1));
    WentShows(t, AdvanceMillisecond(t), NextView(ViewOf(t)));
  }

  lemma InSync(s: Rtc)
    requires RunInvariant(s)
    ensures s.alarmMatchActive == CurrentAlarmMatches(s)
  {
  }

  /** With its status full a step raises nothing new. */
  lemma NothingNew(status: bv8, flags: bv8, enables: bv8, events: bv8, raised: bv8, edge: bool)
    requires StatusFull(status, flags, enables, events) && raised | events == events
    requires edge ==> status & ALARM_PENDING != 0
    ensures flags | raised == flags && Pending(status, raised, enables, edge) == status
  {
    assert flags | raised == (flags | events) | raised == flags | (raised | events);
    if raised & enables != 0 {
      PartOf(raised, events, enables);
    }
    BitUp(status);
  }

  lemma PartOf(part: bv8, whole: bv8, enables: bv8)
    requires part | whole == whole && part & enables != 0
    ensures whole & enables != 0
  {
    assert whole & enables == (part & enables) | (whole & enables);
  }

  lemma BitUp(status: bv8)
    ensures status & PERIODIC_PENDING != 0 <==> status | PERIODIC_PENDING == status
    ensures status & ALARM_PENDING != 0 <==> status | ALARM_PENDING == status
  {
  }

  lemma {:induction false} StillRun(s: Rtc, milliseconds: nat, i: nat)
    requires RunInvariant(s) && TurnsUnseen(s, milliseconds) && i <= milliseconds
    ensures SameStatusBytes(s, AdvanceMilliseconds(s, i))
  {
    hide RunInvariant, TurnsUnseen, AdvanceMillisecond, Raises, TurnEvents, StatusFull, ViewOf, AlarmComesOnAt, TimeLevel,
      NextView, StatusFollows, ViewAfter, SameStatusBytes, TimeReturns, Position;
    if i != 0 {
      StillRun(s, milliseconds, i - 1);
      StepOfRun(s, i - 1);
      var t := AdvanceMilliseconds(s, i - 1);
      var level := TimeLevel(ViewOf(s));
      RaisesAreOfTurn(ViewOf(t));
      StillFacts(s, milliseconds, i - 1);
      hide *;
      StillStep(s, t, AdvanceMilliseconds(s, i), TurnEvents(level), Raises(ViewOf(t)), AlarmComesOnAt(s, i - 1));
    } else {
      SameBytes(s);
    }
  }

  lemma SameBytes(s: Rtc)
    ensures SameStatusBytes(s, AdvanceMilliseconds(s, 0))
  {
  }

  lemma StillStep(s: Rtc, t: Rtc, u: Rtc, events: bv8, raised: bv8, edge: bool)
    requires SameStatusBytes(s, t) && t.alternate[INTERRUPT_CONTROL_0] == s.alternate[INTERRUPT_CONTROL_0]
    requires StatusFull(s.registers[MAIN_STATUS], s.registers[PERIODIC_FLAG], s.alternate[INTERRUPT_CONTROL_0], events)
    requires raised | events == events && (edge ==> s.registers[MAIN_STATUS] & ALARM_PENDING != 0)
    requires StatusFollows(t, u, raised, edge)
    ensures SameStatusBytes(s, u)
  {
    hide Pending, StatusFull;
    NothingNew(s.registers[MAIN_STATUS], s.registers[PERIODIC_FLAG], s.alternate[INTERRUPT_CONTROL_0], events, raised, edge);
  }

  lemma StillFacts(s: Rtc, milliseconds: nat, i: nat)
    requires TurnsUnseen(s, milliseconds) && i < milliseconds
    ensures StatusFull(s.registers[MAIN_STATUS], s.registers[PERIODIC_FLAG], s.alternate[INTERRUPT_CONTROL_0],
                       TurnEvents(TimeLevel(ViewOf(s))))
    ensures AlarmComesOnAt(s, i) ==> s.registers[MAIN_STATUS] & ALARM_PENDING != 0
  {
    hide AlarmComesOnAt, StatusFull, TimeReturns;
  }

  /** Coming back to the same state is passing through no other status. */
  lemma BackMeansFull(s: Rtc, milliseconds: nat, i: nat)
    requires RunInvariant(s) && AdvanceMilliseconds(s, milliseconds) == s && i < milliseconds
    ensures var t := AdvanceMilliseconds(s, i);
            && StatusFull(s.registers[MAIN_STATUS], s.registers[PERIODIC_FLAG], s.alternate[INTERRUPT_CONTROL_0],
                          Raises(ViewOf(t)))
            && (AlarmComesOnAt(s, i) ==> s.registers[MAIN_STATUS] & ALARM_PENDING != 0)
  {
    var t, u := AdvanceMilliseconds(s, i), AdvanceMilliseconds(s, i + 1);
    RunGrows(s, 0, i);
    RunGrows(s, i, milliseconds);
    RunGrows(s, 0, i + 1);
    RunGrows(s, i + 1, milliseconds);
    StepOfRun(s, i);
    assert AdvanceMilliseconds(s, 0) == s;
    hide AdvanceMilliseconds, Below, ViewOf, Raises, Pending, AlarmComesOnAt, StatusFull, RunInvariant, NextView;
    BelowBoth(s, t);
    BelowBoth(s, u);
    FullWhenKept(s.registers[MAIN_STATUS], s.registers[PERIODIC_FLAG], s.alternate[INTERRUPT_CONTROL_0], Raises(ViewOf(t)),
                 AlarmComesOnAt(s, i));
  }

  lemma FullWhenKept(status: bv8, flags: bv8, enables: bv8, events: bv8, edge: bool)
    requires flags == flags | events && status == Pending(status, events, enables, edge)
    ensures StatusFull(status, flags, enables, events)
    ensures edge ==> status & ALARM_PENDING != 0
  {
    PendingBits(status, events, enables, edge);
  }

  lemma PendingBits(status: bv8, events: bv8, enables: bv8, edge: bool)
    ensures events & enables != 0 ==> Pending(status, events, enables, edge) & PERIODIC_PENDING != 0
    ensures edge ==> Pending(status, events, enables, edge) & ALARM_PENDING != 0
  {
  }

  /** Within the milliseconds of a whole turn there is one that ends a turn. */
  lemma TurnEnds(v: ClockView, milliseconds: nat) returns (i: nat)
    requires v.Valid() && milliseconds > 0 && milliseconds % Turn(TimeLevel(v)) == 0
    ensures i < milliseconds && Position(NextView(ViewAfter(v, i))) == 0
  {
    var turn := Turn(TimeLevel(v));
    PositionInjective(v, v);
    i := turn - Position(v) - 1;
    var rounds := ViewRuns(v, i + 1);
    var w := ViewAfter(v, i + 1);
    PositionInjective(w, w);
    hide Position, Turn, NextView;
    WholeTurn(rounds, turn, Position(w));
    AtLeastOnce(milliseconds, turn);
  }

  lemma WholeTurn(rounds: nat, turn: nat, position: nat)
    requires turn == rounds * turn + position && position < turn
    ensures position == 0
  {
    if rounds != 0 {
      assert rounds * turn >= turn;
    }
  }

  lemma AtLeastOnce(value: nat, turn: nat)
    requires value > 0 && turn > 0 && value % turn == 0
    ensures value >= turn
  {
  }

  /** A run of milliseconds leaves the clock as it was exactly in whole turns with every status bit up. */
  lemma StepsUnseen(s: Rtc, milliseconds: nat)
    requires RunInvariant(s) && milliseconds > 0
    ensures AdvanceMilliseconds(s, milliseconds) == s <==> TurnsUnseen(s, milliseconds)
  {
    var v, t := ViewOf(s), AdvanceMilliseconds(s, milliseconds);
    StepsWent(s, milliseconds);
    ViewIsValid(s);
    ViewReturns(v, milliseconds);
    WentShows(s, t, ViewAfter(v, milliseconds));
    if TurnsUnseen(s, milliseconds) {
      StillRun(s, milliseconds, milliseconds);
      MillisecondsKeep(s, milliseconds);
      hide *;
      StillTime(s, milliseconds);
      WholeStateBack(s, t);
    }
    if t == s {
      var i := TurnEnds(v, milliseconds);
      StepOfRun(s, i);
      RaisesAreOfTurn(ViewAfter(v, i));
      hide RunInvariant, Raises, StatusFull, AlarmComesOnAt, TurnEvents, ViewOf, TimeReturns, Went, Position, NextView,
        AdvanceMilliseconds, ViewAfter, TimeLevel;
      BackMeansFull(s, milliseconds, i);
      forall k: nat | k < milliseconds && AlarmComesOnAt(s, k)
        ensures s.registers[MAIN_STATUS] & ALARM_PENDING != 0
      {
        BackMeansFull(s, milliseconds, k);
      }
    }
  }

  lemma StillTime(s: Rtc, milliseconds: nat)
    requires TurnsUnseen(s, milliseconds)
    ensures TimeReturns(ViewOf(s), milliseconds)
  {
  }
}
