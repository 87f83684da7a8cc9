/**
 When stepping an arbitrary clock leaves it as it was, by conditions on its registers
 alone: `StepsChangeNothing`.  The alarm part of them, `AlarmTurns`, says whether the
 alarm comes on in a turn of the counters, from the compare registers.
 */
module RtcStill {
  import opened Options
  import opened Bcd
  import opened Calendar
  import opened RtcState
  import opened RtcMotion
  import opened RtcReach
  import opened RtcRun
  import opened CounterView
  import opened CounterVisits
  import opened RtcTurns

  // Running fields and fixed ones

  /** What the counter that an alarm bit compares shows. */
  function ShownValue(v: ClockView, bit: nat): Option<nat> {
    if bit == 0 then v.seconds
    else if bit == 1 then v.minutes
    else if bit == 2 then v.hour
    else if bit == 3 then v.date.day
    else if bit == 4 then v.date.month
    else v.date.weekday
  }

  /** Whether that counter changes in a turn. */
  predicate Runs(v: ClockView, bit: nat) {
    if bit == 0 then TimeLevel(v) >= 2
    else if bit == 1 then TimeLevel(v) >= 3
    else TimeLevel(v) == 4 && (bit != 2 ==> v.date.day.Some? && ShownValue(v, bit).Some?)
  }

  /** The number in a compare register, if it is one that the counter can show. */
  function CompareValue(s: Rtc, bit: nat): Option<nat>
    requires bit < 6
  {
    var raw := s.registers[SECONDS_COMPARE + bit];
    if bit < 2 then DecodeField(raw, 0x7f, 0, 59)
    else if bit == 2 then DecodeHour(raw, Mode12(s))
    else if bit == 3 then DecodeField(raw, 0x3f, 1, 31)
    else if bit == 4 then DecodeField(raw, 0x1f, 1, 12)
    else DecodeField(raw, 0x07, 1, 7)
  }

  /** A selected field that runs compares with a number, and one that does not run matches already. */
  predicate FieldCanMatch(s: Rtc, bit: nat)
    requires bit < 6
  {
    FieldSelected(s, bit) ==> if Runs(ViewOf(s), bit) then CompareValue(s, bit).Some? else AlarmFieldMatches(s, bit)
  }

  /** A day and a month that run and are both selected go together in some year. */
  predicate DayInMonth(s: Rtc) {
    FieldSelected(s, 3) && FieldSelected(s, 4) && Runs(ViewOf(s), 4)
    && CompareValue(s, 3).Some? && CompareValue(s, 4).Some? ==>
      CompareValue(s, 3).value <= DaysInMonth(CompareValue(s, 4).value, 0)
  }

  predicate RunningField(s: Rtc, bit: nat) {
    FieldSelected(s, bit) && Runs(ViewOf(s), bit)
  }

  /** In a turn of the counters the alarm comes on. */
  predicate AlarmTurns(s: Rtc) {
    && (exists bit: nat :: bit < 6 && RunningField(s, bit))
    && (forall bit: nat :: bit < 6 ==> FieldCanMatch(s, bit))
    && DayInMonth(s)
  }

  // The alarm of a run

  lemma ViewField(v: ClockView, i: nat, bit: nat)
    requires v.Valid()
    ensures var w := ViewAfter(v, i);
            if Runs(v, bit) then ShownValue(w, bit).Some? else ShownValue(w, bit) == ShownValue(v, bit)
  {
    var rounds := ViewRuns(v, i);
    if TimeLevel(v) == 4 {
      if v.date.day.None? {
        StuckDay(v.date, rounds);
      } else {
        WeekdayCounts(v.date, rounds);
      }
    }
    hide ViewAfter, DaysOn, Position, LastDay;
  }

  /** Two fields of which one holds a number are alike exactly when the other holds it. */
  lemma HeldMatches(a: bv8, c: bv8, mask: bv8, first: nat, last: nat, limit: nat, value: nat)
    requires last <= limit < 100 && DecodeField(a, mask, first, last) == Some(value)
    ensures SameUnder(a, c, mask) <==> DecodeField(c, mask, first, limit) == Some(value)
  {
    FieldWithin(a, mask, first, last);
    FieldRoundTrip(a, mask, first, last, value);
    FieldRoundTrip(c, mask, first, limit, value);
    hide DecodeField, EncodeBcd;
  }

  lemma HourMatches(a: bv8, c: bv8, mode12: bool, value: nat)
    requires DecodeHour(a, mode12) == Some(value)
    ensures SameUnder(a, c, HourMask(mode12)) <==> DecodeHour(c, mode12) == Some(value)
  {
    DecodeHourBound(a, mode12);
    HourRoundTrip(a, mode12, value);
    HourRoundTrip(c, mode12, value);
    hide DecodeHour, EncodeHour;
  }

  /** A field that shows a number matches exactly when the compare register holds it. */
  lemma NumberMatches(t: Rtc, bit: nat, value: nat)
    requires bit < 6 && ShownValue(ViewOf(t), bit) == Some(value)
    ensures AlarmFieldMatches(t, bit) <==> (FieldSelected(t, bit) ==> CompareValue(t, bit) == Some(value))
  {
    var a, c := t.registers[AlarmCounter(bit)], t.registers[SECONDS_COMPARE + bit];
    if bit < 2 {
      HeldMatches(a, c, 0x7f, 0, 59, 59, value);
    } else if bit == 2 {
      HourMatches(a, c, Mode12(t), value);
    } else if bit == 3 {
      HeldMatches(a, c, 0x3f, 1, LastDay(MonthOf(t), LeapPhase(t)), 31, value);
    } else if bit == 4 {
      HeldMatches(a, c, 0x1f, 1, 12, 12, value);
    } else {
      HeldMatches(a, c, 0x07, 1, 7, 7, value);
    }
    hide DecodeField, DecodeHour, SameUnder, Mode12, LeapPhase, LastDay, FieldSelected;
  }

  lemma SameCompare(s: Rtc, t: Rtc, bit: nat)
    requires SameConfig(s, t) && bit < 6
    ensures FieldSelected(t, bit) == FieldSelected(s, bit) && CompareValue(t, bit) == CompareValue(s, bit)
    ensures t.registers[SECONDS_COMPARE + bit] == s.registers[SECONDS_COMPARE + bit]
  {
    CompareByte(s, t, bit);
    SameModes(s, t);
    hide SameConfig, DecodeField, DecodeHour, Mode12, FieldSelected;
  }

  lemma StuckByte(s: Rtc, t: Rtc, bit: nat)
    requires bit < 6 && Frozen(s, t) && ShownValue(ViewOf(s), bit).None?
    ensures t.registers[AlarmCounter(bit)] == s.registers[AlarmCounter(bit)]
  {
    hide DecodeField, DecodeHour, LastDay, Mode12, LeapPhase;
  }

  /** A field that still shows the same, or still no number, matches as before. */
  lemma FixedMatches(s: Rtc, t: Rtc, bit: nat)
    requires bit < 6 && Went(s, t, ViewOf(t)) && ShownValue(ViewOf(t), bit) == ShownValue(ViewOf(s), bit)
    ensures AlarmFieldMatches(t, bit) == AlarmFieldMatches(s, bit)
  {
    SameCompare(s, t, bit);
    SameModes(s, t);
    var shown := ShownValue(ViewOf(s), bit);
    if shown.Some? {
      NumberMatches(s, bit, shown.value);
      NumberMatches(t, bit, shown.value);
      hide AlarmFieldMatches, Went, ViewOf, FieldSelected, CompareValue;
    } else {
      StuckByte(s, t, bit);
      hide Went, ViewOf, FieldSelected, CompareValue, CounterMask, Mode12, SameUnder;
    }
  }

  /** A field of the alarm at a moment of the run that shows `w`. */
  predicate FieldMatchesAt(s: Rtc, w: ClockView, bit: nat)
    requires bit < 6
  {
    FieldSelected(s, bit) ==>
      if Runs(ViewOf(s), bit) then CompareValue(s, bit).Some? && ShownValue(w, bit) == CompareValue(s, bit)
      else AlarmFieldMatches(s, bit)
  }

  lemma FieldAt(s: Rtc, i: nat, bit: nat)
    requires s.millisecond < 10 && bit < 6
    ensures var t := AdvanceMilliseconds(s, i);
            AlarmFieldMatches(t, bit) <==> FieldMatchesAt(s, ViewAfter(ViewOf(s), i), bit)
  {
    var v, t := ViewOf(s), AdvanceMilliseconds(s, i);
    hide AdvanceMilliseconds, ViewAfter, ViewOf, Went, FieldSelected, CompareValue, AlarmFieldMatches, Runs, ShownValue,
      ClockView.Valid;
    ViewIsValid(s);
    ViewField(v, i, bit);
    StepsWent(s, i);
    WentShows(s, t, ViewAfter(v, i));
    WentCompares(s, t, bit);
    if Runs(v, bit) {
      NumberMatches(t, bit, ShownValue(ViewOf(t), bit).value);
    } else {
      FixedMatches(s, t, bit);
      FixedUnselected(s, bit);
    }
  }

  lemma FixedUnselected(s: Rtc, bit: nat)
    requires bit < 6
    ensures !FieldSelected(s, bit) ==> AlarmFieldMatches(s, bit)
  {
  }

  lemma WentCompares(s: Rtc, t: Rtc, bit: nat)
    requires Went(s, t, ViewOf(t)) && bit < 6
    ensures FieldSelected(t, bit) == FieldSelected(s, bit) && CompareValue(t, bit) == CompareValue(s, bit)
    ensures AlarmEnables(t) == AlarmEnables(s)
  {
    SameCompare(s, t, bit);
    SameEnables(s, t);
  }

  /** The alarm at a moment of the run. */
  predicate MatchesAt(s: Rtc, w: ClockView) {
    AlarmEnables(s) != 0 && forall bit: nat :: bit < 6 ==> FieldMatchesAt(s, w, bit)
  }

  lemma AlarmAt(s: Rtc, i: nat)
    requires s.millisecond < 10
    ensures CurrentAlarmMatches(AdvanceMilliseconds(s, i)) <==> MatchesAt(s, ViewAfter(ViewOf(s), i))
  {
    var t := AdvanceMilliseconds(s, i);
    StepsWent(s, i);
    WentShows(s, t, ViewAfter(ViewOf(s), i));
    WentCompares(s, t, 0);
    hide AdvanceMilliseconds, ViewAfter, ViewOf, Went, FieldMatchesAt, AlarmFieldMatches, AlarmEnables, FieldSelected,
      CompareValue;
    forall bit: nat | bit < 6
      ensures AlarmFieldMatches(t, bit) <==> FieldMatchesAt(s, ViewAfter(ViewOf(s), i), bit)
    {
      FieldAt(s, i, bit);
    }
  }

  // If it comes on

  /** Where the alarm matches, its fields can match. */
  lemma MatchCan(s: Rtc, w: ClockView)
    requires w.Valid() && MatchesAt(s, w)
    ensures (forall bit: nat :: bit < 6 ==> FieldCanMatch(s, bit)) && DayInMonth(s)
  {
    assert FieldMatchesAt(s, w, 3) && FieldMatchesAt(s, w, 4);
    LongestMonth(w.date);
    hide FieldSelected, CompareValue, AlarmFieldMatches, ViewOf, AlarmEnables, DaysInMonth, LastDay;
    assert Runs(ViewOf(s), 4) ==> Runs(ViewOf(s), 3);
    forall bit: nat | bit < 6
      ensures FieldCanMatch(s, bit)
    {
      assert FieldMatchesAt(s, w, bit);
    }
  }

  lemma LongestMonth(d: DateView)
    requires d.Valid()
    ensures d.day.Some? && d.month.Some? ==> d.day.value <= DaysInMonth(d.month.value, 0)
  {
  }

  /** Without a running field that is selected the alarm does not change. */
  lemma NothingRuns(s: Rtc, w: ClockView, x: ClockView)
    requires forall bit: nat :: bit < 6 ==> !RunningField(s, bit)
    ensures MatchesAt(s, w) == MatchesAt(s, x)
  {
    hide FieldSelected, CompareValue, AlarmFieldMatches, ViewOf, AlarmEnables, Runs;
    forall bit: nat | bit < 6
      ensures FieldMatchesAt(s, w, bit) == FieldMatchesAt(s, x, bit)
    {
      assert !RunningField(s, bit);
    }
    hide FieldMatchesAt;
  }

  /** So an alarm without a running field, as on a clock whose seconds never count, stays as it is. */
  lemma QuietAlarm(s: Rtc, milliseconds: nat)
    requires s.millisecond < 10 && forall bit: nat :: bit < 6 ==> !RunningField(s, bit)
    ensures CurrentAlarmMatches(AdvanceMilliseconds(s, milliseconds)) == CurrentAlarmMatches(s)
  {
    assert AdvanceMilliseconds(s, 0) == s && ViewAfter(ViewOf(s), 0) == ViewOf(s);
    hide CurrentAlarmMatches, AdvanceMilliseconds, ViewAfter, ViewOf, MatchesAt, RunningField;
    AlarmAt(s, 0);
    AlarmAt(s, milliseconds);
    NothingRuns(s, ViewOf(s), ViewAfter(ViewOf(s), milliseconds));
  }

  lemma ComesOnOnlyIf(s: Rtc, i: nat)
    requires s.millisecond < 10 && AlarmComesOnAt(s, i)
    ensures AlarmTurns(s)
  {
    var v := ViewOf(s);
    AlarmAt(s, i);
    AlarmAt(s, i + 1);
    ViewIsValid(s);
    var rounds := ViewRuns(v, i + 1);
    hide CurrentAlarmMatches, AdvanceMilliseconds, ViewAfter, MatchesAt, FieldCanMatch, DayInMonth, RunningField, ViewOf;
    MatchCan(s, ViewAfter(v, i + 1));
    if forall bit: nat :: bit < 6 ==> !RunningField(s, bit) {
      NothingRuns(s, ViewAfter(v, i), ViewAfter(v, i + 1));
    }
  }

  // If it can

  /** A time and date for the fields of the alarm. */
  datatype Moment = Moment(seconds: nat, minutes: nat, hour: nat, day: nat, month: nat, weekday: nat) {
    function At(bit: nat): nat {
      if bit == 0 then seconds
      else if bit == 1 then minutes
      else if bit == 2 then hour
      else if bit == 3 then day
      else if bit == 4 then month
      else weekday
    }

    predicate Fits(month: Option<nat>) {
      seconds < 60 && minutes < 60 && hour < 24 && 1 <= weekday <= 7 && DayOfMonth(month, day, this.month)
    }
  }

  /** Some moment of whole turns shows it in every field that runs. */
  lemma MomentVisited(v: ClockView, milliseconds: nat, m: Moment) returns (i: nat)
    requires v.Valid() && milliseconds > 0 && TimeReturns(v, milliseconds) && TimeLevel(v) >= 2
    requires m.Fits(v.date.month)
    ensures i <= milliseconds
    ensures forall bit: nat :: bit < 6 && Runs(v, bit) ==> ShownValue(ViewAfter(v, i), bit) == Some(m.At(bit))
  {
    hide ViewAfter, DateReturns, DaysOn, DayOfMonth, DateView.Valid;
    var days := 0;
    if v.date.day.Some? {
      days := DateVisits(v.date, m.day, m.month, m.weekday);
    }
    i := TimeVisits(v, milliseconds, m.seconds, m.minutes, m.hour, days);
  }

  /** The numbers of the compare registers, where they count, and others where they do not. */
  function Compared(s: Rtc): Moment {
    Moment(Wanted(s, 0, 0), Wanted(s, 1, 0), Wanted(s, 2, 0), Wanted(s, 3, 1), Wanted(s, 4, 1), Wanted(s, 5, 1))
  }

  function Wanted(s: Rtc, bit: nat, other: nat): nat
    requires bit < 6
  {
    if RunningField(s, bit) && CompareValue(s, bit).Some? then CompareValue(s, bit).value else other
  }

  lemma CompareWithin(s: Rtc, bit: nat)
    requires bit < 6 && CompareValue(s, bit).Some?
    ensures bit < 2 ==> CompareValue(s, bit).value < 60
    ensures bit == 2 ==> CompareValue(s, bit).value < 24
    ensures bit == 3 ==> 1 <= CompareValue(s, bit).value <= 31
    ensures bit == 4 ==> 1 <= CompareValue(s, bit).value <= 12
    ensures bit == 5 ==> 1 <= CompareValue(s, bit).value <= 7
  {
    DecodeHourBound(s.registers[SECONDS_COMPARE + bit], Mode12(s));
    hide DecodeBcd, DecodeHour;
  }

  lemma WantedWithin(s: Rtc, bit: nat, other: nat)
    requires bit < 6
    ensures var x := Wanted(s, bit, other);
            || x == other
            || (if bit < 2 then x < 60 else if bit == 2 then x < 24 else if bit == 3 then 1 <= x <= 31
                else if bit == 4 then 1 <= x <= 12 else 1 <= x <= 7)
  {
    if RunningField(s, bit) && CompareValue(s, bit).Some? {
      CompareWithin(s, bit);
    }
    hide CompareValue, RunningField;
  }

  lemma ComparedFits(s: Rtc)
    requires DayInMonth(s)
    ensures Compared(s).Fits(ViewOf(s).date.month)
  {
    WantedWithin(s, 0, 0);
    WantedWithin(s, 1, 0);
    WantedWithin(s, 2, 0);
    WantedWithin(s, 3, 1);
    WantedWithin(s, 4, 1);
    WantedWithin(s, 5, 1);
    hide CompareValue, FieldSelected, ViewOf, TimeLevel;
  }

  /** A moment that shows what the compare registers want makes the alarm match. */
  lemma ShownMatches(s: Rtc, w: ClockView)
    requires AlarmTurns(s)
    requires forall bit: nat :: bit < 6 && Runs(ViewOf(s), bit) ==> ShownValue(w, bit) == Some(Compared(s).At(bit))
    ensures MatchesAt(s, w)
  {
    SomeSelected(s);
    hide CompareValue, FieldSelected, ViewOf, TimeLevel, AlarmEnables, AlarmFieldMatches, DayInMonth, ShownValue, Runs;
    forall bit: nat | bit < 6
      ensures FieldMatchesAt(s, w, bit)
    {
      assert FieldCanMatch(s, bit);
    }
  }

  lemma SomeSelected(s: Rtc)
    requires AlarmTurns(s)
    ensures AlarmEnables(s) != 0
  {
    var bit: nat :| bit < 6 && RunningField(s, bit);
    hide FieldCanMatch, DayInMonth, Runs;
    NoEnables(AlarmBit(bit));
  }

  lemma NoEnables(mask: bv8)
    ensures 0 & mask == 0
  {
  }

  /** The same moment with another value in one field. */
  function Other(m: Moment, bit: nat): Moment {
    if bit == 0 then m.(seconds := if m.seconds == 0 then 1 else 0)
    else if bit == 1 then m.(minutes := if m.minutes == 0 then 1 else 0)
    else if bit == 2 then m.(hour := if m.hour == 0 then 1 else 0)
    else if bit == 3 then m.(day := if m.day == 1 then 2 else 1)
    else if bit == 4 then m.(day := 1, month := if m.month == 1 then 2 else 1)
    else m.(weekday := if m.weekday == 1 then 2 else 1)
  }

  lemma OtherFits(m: Moment, bit: nat, month: Option<nat>)
    requires bit < 6 && m.Fits(month)
    ensures Other(m, bit).Fits(month) && Other(m, bit).At(bit) != m.At(bit)
  {
  }

  lemma OtherMisses(s: Rtc, w: ClockView, bit: nat, value: nat)
    requires bit < 6 && RunningField(s, bit) && FieldCanMatch(s, bit)
    requires ShownValue(w, bit) == Some(value) && value != Compared(s).At(bit)
    ensures !MatchesAt(s, w)
  {
    hide CompareValue, FieldSelected, ViewOf, AlarmEnables, AlarmFieldMatches, Runs, ShownValue;
    assert !FieldMatchesAt(s, w, bit);
    hide FieldMatchesAt;
  }

  /** From a moment without a match to one with it the alarm comes on. */
  lemma {:induction false} ComesOnBetween(s: Rtc, off: nat, on: nat)
    requires off < on
    requires !CurrentAlarmMatches(AdvanceMilliseconds(s, off)) && CurrentAlarmMatches(AdvanceMilliseconds(s, on))
    ensures exists i: nat :: off <= i < on && AlarmComesOnAt(s, i)
    decreases on
  {
    hide CurrentAlarmMatches, AdvanceMilliseconds;
    if CurrentAlarmMatches(AdvanceMilliseconds(s, on - 1)) {
      ComesOnBetween(s, off, on - 1);
    } else {
      assert AlarmComesOnAt(s, on - 1);
    }
  }

  /** A run that ends as it began and both matches and does not match sees the alarm come on. */
  lemma ComesOnInCycle(s: Rtc, milliseconds: nat, off: nat, on: nat)
    requires off <= milliseconds && on <= milliseconds
    requires !CurrentAlarmMatches(AdvanceMilliseconds(s, off)) && CurrentAlarmMatches(AdvanceMilliseconds(s, on))
    requires CurrentAlarmMatches(AdvanceMilliseconds(s, milliseconds)) == CurrentAlarmMatches(AdvanceMilliseconds(s, 0))
    ensures AlarmComesOn(s, milliseconds)
  {
    hide CurrentAlarmMatches, AdvanceMilliseconds, AlarmComesOnAt;
    if off < on {
      ComesOnBetween(s, off, on);
    } else if CurrentAlarmMatches(AdvanceMilliseconds(s, 0)) {
      ComesOnBetween(s, off, milliseconds);
    } else {
      ComesOnBetween(s, 0, on);
    }
  }

  lemma ComesOnIf(s: Rtc, milliseconds: nat)
    requires s.millisecond < 10 && milliseconds > 0 && TimeReturns(ViewOf(s), milliseconds) && AlarmTurns(s)
    ensures AlarmComesOn(s, milliseconds)
  {
    var v := ViewOf(s);
    ViewIsValid(s);
    var bit: nat :| bit < 6 && RunningField(s, bit);
    assert FieldCanMatch(s, bit) && TimeLevel(v) >= 2;
    ComparedFits(s);
    OtherFits(Compared(s), bit, v.date.month);
    ViewReturns(v, milliseconds);
    assert ViewAfter(v, 0) == v;
    assert Runs(v, bit);
    hide ViewOf, Compared, Other, Moment.Fits, TimeReturns, FieldCanMatch, ViewAfter, AdvanceMilliseconds, CurrentAlarmMatches,
      MatchesAt, Runs, ShownValue, AlarmTurns, RunningField, ClockView.Valid, TimeLevel;
    var on := MomentVisited(v, milliseconds, Compared(s));
    ShownMatches(s, ViewAfter(v, on));
    var off := MomentVisited(v, milliseconds, Other(Compared(s), bit));
    OtherMisses(s, ViewAfter(v, off), bit, Other(Compared(s), bit).At(bit));
    AlarmAt(s, on);
    AlarmAt(s, off);
    AlarmAt(s, 0);
    AlarmAt(s, milliseconds);
    ComesOnInCycle(s, milliseconds, off, on);
  }

  /** In whole turns the alarm comes on exactly when the compare registers say so. */
  lemma AlarmTurnsExactly(s: Rtc, milliseconds: nat)
    requires s.millisecond < 10 && milliseconds > 0 && TimeReturns(ViewOf(s), milliseconds)
    ensures AlarmComesOn(s, milliseconds) <==> AlarmTurns(s)
  {
    hide AlarmTurns, AlarmComesOnAt, ViewOf, TimeReturns;
    if AlarmTurns(s) {
      ComesOnIf(s, milliseconds);
    }
    if AlarmComesOn(s, milliseconds) {
      var i: nat :| i < milliseconds && AlarmComesOnAt(s, i);
      ComesOnOnlyIf(s, i);
    }
  }

  // Standing still

  /** Whole turns, every event that ends one flagged, and both pending bits up as far as a turn raises them. */
  predicate StandsStill(s: Rtc, milliseconds: nat) {
    && TimeReturns(ViewOf(s), milliseconds)
    && StatusFull(s.registers[MAIN_STATUS], s.registers[PERIODIC_FLAG], s.alternate[INTERRUPT_CONTROL_0],
                  TurnEvents(TimeLevel(ViewOf(s))))
    && (AlarmTurns(s) ==> s.registers[MAIN_STATUS] & ALARM_PENDING != 0)
  }

  /** A run of milliseconds leaves the clock as it was exactly in whole turns with every status bit up. */
  lemma StepsChangeNothing(s: Rtc, milliseconds: nat)
    requires RunInvariant(s) && milliseconds > 0
    ensures AdvanceMilliseconds(s, milliseconds) == s <==> StandsStill(s, milliseconds)
  {
    StepsUnseen(s, milliseconds);
    hide AdvanceMilliseconds, AlarmTurns, AlarmComesOn, TimeReturns, StatusFull, AlarmInSync, SavesInSync, ViewOf, TurnEvents;
    if TimeReturns(ViewOf(s), milliseconds) {
      AlarmTurnsExactly(s, milliseconds);
    }
  }

  // A clock that cannot be decoded

  /** A running clock with letters for hundredths, whose flags have not been read for a while. */
  const STUCK: Rtc := Rtc(seq(32, i => if i == HUNDREDTHS then 0xff else if i == PERIODIC_FLAG then 0x30 else 0),
                          [0x08, 0, 0, 0], 0, 0, false, false, false)

  lemma StuckLevel()
    ensures RunInvariant(STUCK) && Running(STUCK) && TimeLevel(ViewOf(STUCK)) == 0 && !ViewOf(STUCK).AllHold()
    ensures !AlarmTurns(STUCK)
  {
    assert AlarmEnables(STUCK) == 0;
    assert DecodeField(STUCK.registers[HUNDREDTHS], 0xff, 0, 99).None?;
    hide DecodeField;
  }

  /** Ten milliseconds change nothing on it, and one does. */
  lemma TenMillisecondsUnseen()
    ensures RunInvariant(STUCK) && Running(STUCK) && DecodeClock(STUCK).None?
    ensures AdvanceMilliseconds(STUCK, 10) == STUCK
    ensures AdvanceMilliseconds(STUCK, 1) != STUCK
  {
    StuckLevel();
    DecodesIfAllHold(STUCK);
    hide AdvanceMilliseconds, DecodeClock, AlarmTurns, ViewOf, TimeLevel, RunInvariant;
    StepsChangeNothing(STUCK, 10);
    StepsChangeNothing(STUCK, 1);
  }

  /** The same clock with its flags read. */
  const UNREAD: Rtc := Put(STUCK, PERIODIC_FLAG, 0)

  lemma {:induction false} UnreadSteps(milliseconds: nat)
    requires 1 <= milliseconds <= 9
    ensures AdvanceMilliseconds(UNREAD, milliseconds)
         == Put(STUCK, PERIODIC_FLAG, PERIODIC_MILLISECOND).(millisecond := milliseconds)
  {
    hide AdvanceMillisecond;
    if milliseconds == 1 {
      UnreadStep(UNREAD);
      assert AdvanceMilliseconds(UNREAD, 0) == UNREAD;
    } else {
      UnreadSteps(milliseconds - 1);
      UnreadStep(AdvanceMilliseconds(UNREAD, milliseconds - 1));
    }
  }

  lemma UnreadStep(s: Rtc)
    requires s.millisecond < 9 && s.alternate == STUCK.alternate && s == STUCK.(millisecond := s.millisecond, registers := s.registers)
    requires s.registers == STUCK.registers[PERIODIC_FLAG := 0]
          || s.registers == STUCK.registers[PERIODIC_FLAG := PERIODIC_MILLISECOND]
    ensures AdvanceMillisecond(s)
         == Put(STUCK, PERIODIC_FLAG, PERIODIC_MILLISECOND).(millisecond := s.millisecond + 1)
  {
    hide AdvanceHundredth;
    assert AdvanceMillisecond(s).registers == STUCK.registers[PERIODIC_FLAG := PERIODIC_MILLISECOND];
  }

  lemma TenSteps()
    ensures AdvanceMilliseconds(UNREAD, 10) == STUCK
  {
    UnreadSteps(9);
    var s := AdvanceMilliseconds(UNREAD, 9);
    assert DecodeField(STUCK.registers[HUNDREDTHS], 0xff, 0, 99).None?;
    hide DecodeField;
    assert AdvanceMillisecond(s).registers == STUCK.registers;
  }

  /** The registers written: start the clock in the other bank, come back, and spoil the hundredths. */
  const WRITTEN: seq<Operation> :=
    [Write(0x00, 0x40), Write(0x01, 0x08), Write(0x00, 0x00), Write(HUNDREDTHS, 0xff)]

  lemma RunOneMore(s: Rtc, before: seq<Operation>, last: Operation)
    requires !last.Restore?
    ensures Run(s, before + [last]) == Apply(Run(s, before), s, last)
  {
    assert (before + [last])[..|before|] == before;
    hide WriteRegister, AfterRead, AdvanceTime, AfterOffline;
  }

  lemma WrittenRun()
    ensures Run(PowerOn, WRITTEN) == UNREAD
  {
    assert WRITTEN == [] + [Write(0x00, 0x40)] + [Write(0x01, 0x08)] + [Write(0x00, 0x00)] + [Write(HUNDREDTHS, 0xff)];
    RunOneMore(PowerOn, [], Write(0x00, 0x40));
    RunOneMore(PowerOn, [] + [Write(0x00, 0x40)], Write(0x01, 0x08));
    RunOneMore(PowerOn, [] + [Write(0x00, 0x40)] + [Write(0x01, 0x08)], Write(0x00, 0x00));
    RunOneMore(PowerOn, [] + [Write(0x00, 0x40)] + [Write(0x01, 0x08)] + [Write(0x00, 0x00)], Write(HUNDREDTHS, 0xff));
    var s1 := Put(PowerOn, MAIN_STATUS, 0x40);
    var s2 := s1.(alternate := [0x08, 0, 0, 0], oscillatorFailed := false);
    var s3 := Put(s2, MAIN_STATUS, 0);
    StatusWritten(PowerOn, s1, 0x40);
    ModeWritten(s1, s2);
    StatusWritten(s2, s3, 0);
    HundredthsWritten(s3);
    LastWrite(s3);
    hide *;
  }

  lemma StatusWritten(s: Rtc, t: Rtc, value: bv8)
    requires t == Put(s, MAIN_STATUS, value)
    requires (s == PowerOn && value == 0x40) || (s.registers[MAIN_STATUS] == 0x40 && value == 0)
    ensures WriteRegister(s, 0x00, value) == t
  {
  }

  lemma HundredthsWritten(s: Rtc)
    requires s.registers[TIME_SAVE_CONTROL] == 0
    ensures WriteRegister(s, HUNDREDTHS, 0xff) == Put(s, HUNDREDTHS, 0xff)
  {
    hide RecomputeAlarm, CopyTimeSave;
  }

  lemma LastWrite(s: Rtc)
    requires s == Put(Put(PowerOn, MAIN_STATUS, 0x40).(alternate := [0x08, 0, 0, 0], oscillatorFailed := false), MAIN_STATUS, 0)
    ensures Put(s, HUNDREDTHS, 0xff) == UNREAD
  {
    assert Put(s, HUNDREDTHS, 0xff).registers == UNREAD.registers;
  }

  lemma ModeWritten(s: Rtc, t: Rtc)
    requires s == Put(PowerOn, MAIN_STATUS, 0x40) && t == s.(alternate := [0x08, 0, 0, 0], oscillatorFailed := false)
    ensures WriteRegister(s, 0x01, 0x08) == t
  {
    assert s.alternate[REAL_TIME_MODE := 0x08] == [0x08, 0, 0, 0];
    assert AlarmEnables(t) == 0;
    assert FinishClockChange(t) == t;
  }

  /** Register writes and ten milliseconds lead to it from power-on. */
  lemma StuckIsReached()
    ensures Run(PowerOn, WRITTEN + [Advance(10 * ATTOSECONDS_PER_MILLISECOND)]) == STUCK
  {
    var last := Advance(10 * ATTOSECONDS_PER_MILLISECOND);
    assert !last.Restore?;
    assert forall s: Rtc :: Apply(s, PowerOn, last) == AdvanceTime(s, 10 * ATTOSECONDS_PER_MILLISECOND) by {
      hide AdvanceTime;
    }
    hide *;
    WrittenRun();
    RunOneMore(PowerOn, WRITTEN, last);
    TenSteps();
    TenPass(UNREAD);
    UnreadRuns();
  }

  lemma UnreadRuns()
    ensures Running(UNREAD) && UNREAD.prescalerPhase == 0
  {
  }

  lemma TenPass(s: Rtc)
    ensures Running(s) && s.prescalerPhase == 0 ==>
              AdvanceTime(s, 10 * ATTOSECONDS_PER_MILLISECOND) == AdvanceMilliseconds(s, 10)
  {
    hide AdvanceMilliseconds, Running;
    assert s.prescalerPhase == 0 ==> s.(prescalerPhase := 0) == s;
  }
}
