/**
 Virtual time on the DP8573A is additive: how a caller splits an interval does
 not matter.  The sub-millisecond phase is carried beside the counters, which
 never look at it.
 */
module RtcTime {
  import opened Options
  import opened Bcd
  import opened ClockTime
  import opened RtcState
  import opened RtcMotion
  import opened RtcReach
  import opened RtcRun

  function WithPhase(s: Rtc, phase: nat): Rtc {
    s.(prescalerPhase := phase)
  }

  function StepWithPhase(step: Increment, phase: nat): Increment {
    if step.Invalid? then step else step.(state := WithPhase(step.state, phase))
  }

  lemma BumpIgnoresPhase(s: Rtc, phase: nat, register: nat, mask: bv8, minimum: nat, maximum: nat)
    requires register < 32 && minimum <= maximum < 100
    ensures BumpBcd(WithPhase(s, phase), register, mask, minimum, maximum)
         == WithPhase(BumpBcd(s, register, mask, minimum, maximum), phase)
    ensures IncrementBcd(WithPhase(s, phase), register, mask, minimum, maximum)
         == StepWithPhase(IncrementBcd(s, register, mask, minimum, maximum), phase)
  {
    hide DecodeField, WithField;
  }

  lemma MonthIgnoresPhase(s: Rtc, phase: nat)
    ensures AdvanceMonth(WithPhase(s, phase)) == WithPhase(AdvanceMonth(s), phase)
  {
    hide IncrementBcd, BumpBcd;
    BumpIgnoresPhase(s, phase, MONTH, 0x1f, 1, 12);
    var month := IncrementBcd(s, MONTH, 0x1f, 1, 12);
    if month.Incremented? {
      BumpIgnoresPhase(month.state, phase, YEAR, 0xff, 0, 99);
    }
  }

  lemma DayIgnoresPhase(s: Rtc, phase: nat)
    ensures AdvanceDay(WithPhase(s, phase)) == WithPhase(AdvanceDay(s), phase)
  {
    assert DaysInCurrentMonth(WithPhase(s, phase)) == DaysInCurrentMonth(s);
    hide IncrementBcd, BumpBcd, DaysInCurrentMonth, AdvanceMonth;
    BumpIgnoresPhase(s, phase, DAY_OF_MONTH, 0x3f, 1, DaysInCurrentMonth(s));
    var day := IncrementBcd(s, DAY_OF_MONTH, 0x3f, 1, DaysInCurrentMonth(s));
    if day.Incremented? {
      BumpIgnoresPhase(day.state, phase, DAY_OF_WEEK, 0x07, 1, 7);
      MonthIgnoresPhase(BumpBcd(day.state, DAY_OF_WEEK, 0x07, 1, 7), phase);
    }
  }

  lemma HourIgnoresPhase(s: Rtc, phase: nat)
    ensures AdvanceHour(WithPhase(s, phase)) == WithPhase(AdvanceHour(s), phase)
  {
    hide DecodeField, WithField, WithHour12, AdvanceDay;
    forall t: Rtc
      ensures AdvanceDay(WithPhase(t, phase)) == WithPhase(AdvanceDay(t), phase)
    {
      DayIgnoresPhase(t, phase);
    }
  }

  lemma MinuteIgnoresPhase(s: Rtc, phase: nat)
    ensures AdvanceMinute(WithPhase(s, phase)) == WithPhase(AdvanceMinute(s), phase)
  {
    hide DecodeField, WithField, AdvanceHour;
    forall t: Rtc
      ensures AdvanceHour(WithPhase(t, phase)) == WithPhase(AdvanceHour(t), phase)
    {
      HourIgnoresPhase(t, phase);
    }
  }

  lemma {:induction false} CopyIgnoresPhase(s: Rtc, phase: nat, count: nat)
    requires count <= 5
    ensures CopyTimeSaves(WithPhase(s, phase), count) == WithPhase(CopyTimeSaves(s, count), phase)
  {
    hide CounterMask;
    if count != 0 {
      CopyIgnoresPhase(s, phase, count - 1);
    }
  }

  lemma FinishIgnoresPhase(s: Rtc, phase: nat)
    ensures FinishClockChange(WithPhase(s, phase)) == WithPhase(FinishClockChange(s), phase)
  {
    CopyIgnoresPhase(s, phase, 5);
    var u := if TimeSaveEnabled(s) then CopyTimeSaves(s, 5) else s;
    SameButStatus(u, WithPhase(u, phase));
    hide CurrentAlarmMatches, CopyTimeSaves;
  }

  lemma SecondIgnoresPhase(s: Rtc, phase: nat)
    ensures AdvanceSecond(WithPhase(s, phase)) == (WithPhase(AdvanceSecond(s).0, phase), AdvanceSecond(s).1)
  {
    hide DecodeField, WithField, AdvanceMinute, FinishClockChange;
    forall t: Rtc
      ensures AdvanceMinute(WithPhase(t, phase)) == WithPhase(AdvanceMinute(t), phase)
      ensures FinishClockChange(WithPhase(t, phase)) == WithPhase(FinishClockChange(t), phase)
    {
      MinuteIgnoresPhase(t, phase);
      FinishIgnoresPhase(t, phase);
    }
  }

  lemma HundredthIgnoresPhase(s: Rtc, phase: nat)
    ensures AdvanceHundredth(WithPhase(s, phase)) == (WithPhase(AdvanceHundredth(s).0, phase), AdvanceHundredth(s).1)
  {
    hide IncrementBcd, AdvanceSecond;
    BumpIgnoresPhase(s, phase, HUNDREDTHS, 0xff, 0, 99);
    var hundredth := IncrementBcd(s, HUNDREDTHS, 0xff, 0, 99);
    if hundredth.Incremented? {
      SecondIgnoresPhase(hundredth.state, phase);
    }
  }

  lemma RaiseIgnoresPhase(s: Rtc, phase: nat, events: bv8)
    ensures RaisePeriodicEvents(WithPhase(s, phase), events) == WithPhase(RaisePeriodicEvents(s, events), phase)
  {
  }

  lemma MillisecondIgnoresPhase(s: Rtc, phase: nat)
    ensures AdvanceMillisecond(WithPhase(s, phase)) == WithPhase(AdvanceMillisecond(s), phase)
  {
    hide AdvanceHundredth, RaisePeriodicEvents;
    var s0, s1 := s.(millisecond := 0), s.(millisecond := s.millisecond + 1);
    HundredthIgnoresPhase(s0, phase);
    RaiseIgnoresPhase(AdvanceHundredth(s0).0, phase,
                      PERIODIC_MILLISECOND | PERIODIC_TEN_MILLISECONDS | AdvanceHundredth(s0).1);
    RaiseIgnoresPhase(s1, phase, PERIODIC_MILLISECOND);
  }

  lemma {:induction false} MillisecondsIgnorePhase(s: Rtc, phase: nat, milliseconds: nat)
    ensures AdvanceMilliseconds(WithPhase(s, phase), milliseconds)
         == WithPhase(AdvanceMilliseconds(s, milliseconds), phase)
  {
    hide AdvanceMillisecond;
    if milliseconds != 0 {
      MillisecondsIgnorePhase(s, phase, milliseconds - 1);
      MillisecondIgnoresPhase(AdvanceMilliseconds(s, milliseconds - 1), phase);
    }
  }

  // The clock does not stop itself

  lemma MonthKeepsRunning(s: Rtc)
    ensures Running(AdvanceMonth(s)) == Running(s)
  {
    hide DecodeField, WithField;
    NextLeapBits(s.alternate[REAL_TIME_MODE]);
    ModeBits(s.alternate[REAL_TIME_MODE], NextLeapPhase(s).alternate[REAL_TIME_MODE]);
  }

  lemma DayKeepsRunning(s: Rtc)
    ensures Running(AdvanceDay(s)) == Running(s)
  {
    hide DecodeField, WithField, DaysInCurrentMonth, AdvanceMonth;
    forall t: Rtc
      ensures Running(AdvanceMonth(t)) == Running(t)
    {
      MonthKeepsRunning(t);
    }
  }

  lemma MinuteKeepsRunning(s: Rtc)
    ensures Running(AdvanceMinute(s)) == Running(s)
  {
    hide DecodeField, WithField, WithHour12, AdvanceDay;
    forall t: Rtc
      ensures Running(AdvanceDay(t)) == Running(t)
    {
      DayKeepsRunning(t);
    }
  }

  lemma FinishKeepsRunning(s: Rtc)
    ensures FinishClockChange(s).alternate == s.alternate
    ensures FinishClockChange(s).prescalerPhase == s.prescalerPhase
  {
    FinishFollows(s);
  }

  lemma HundredthKeepsRunning(s: Rtc)
    ensures Running(AdvanceHundredth(s).0) == Running(s)
    ensures AdvanceHundredth(s).0.prescalerPhase == s.prescalerPhase
  {
    hide DecodeField, WithField, AdvanceMinute, FinishClockChange;
    forall t: Rtc
      ensures Running(AdvanceMinute(t)) == Running(t) && KeepsPhase(t, AdvanceMinute(t))
    {
      MinuteKeepsRunning(t);
      MinuteKeepsPhase(t);
    }
    forall t: Rtc
      ensures FinishClockChange(t).alternate == t.alternate && FinishClockChange(t).prescalerPhase == t.prescalerPhase
    {
      FinishKeepsRunning(t);
    }
  }

  lemma MillisecondKeepsRunning(s: Rtc)
    ensures Running(AdvanceMillisecond(s)) == Running(s)
    ensures AdvanceMillisecond(s).prescalerPhase == s.prescalerPhase
  {
    hide AdvanceHundredth;
    HundredthKeepsRunning(s.(millisecond := 0));
  }

  lemma {:induction false} MillisecondsKeepRunning(s: Rtc, milliseconds: nat)
    ensures Running(AdvanceMilliseconds(s, milliseconds)) == Running(s)
    ensures AdvanceMilliseconds(s, milliseconds).prescalerPhase == s.prescalerPhase
  {
    hide AdvanceMillisecond, Running;
    if milliseconds != 0 {
      MillisecondsKeepRunning(s, milliseconds - 1);
      MillisecondKeepsRunning(AdvanceMilliseconds(s, milliseconds - 1));
    }
  }

  lemma {:induction false} MillisecondsAdd(s: Rtc, a: nat, b: nat)
    ensures AdvanceMilliseconds(s, a + b) == AdvanceMilliseconds(AdvanceMilliseconds(s, a), b)
  {
    hide AdvanceMillisecond;
    if b != 0 {
      MillisecondsAdd(s, a, b - 1);
    }
  }

  /** The closed form of an advance: whole milliseconds are stepped, the rest is the phase. */
  lemma AdvanceIs(s: Rtc, elapsed: nat, milliseconds: nat, rest: nat)
    requires Running(s) && rest < ATTOSECONDS_PER_MILLISECOND && s.prescalerPhase < ATTOSECONDS_PER_MILLISECOND
    requires s.prescalerPhase + elapsed == milliseconds * ATTOSECONDS_PER_MILLISECOND + rest
    ensures AdvanceTime(s, elapsed) == WithPhase(AdvanceMilliseconds(s, milliseconds), rest)
  {
    hide AdvanceMilliseconds, Running;
    var phase := s.prescalerPhase + elapsed % ATTOSECONDS_PER_MILLISECOND;
    assert phase % ATTOSECONDS_PER_MILLISECOND == rest;
    assert elapsed / ATTOSECONDS_PER_MILLISECOND + phase / ATTOSECONDS_PER_MILLISECOND == milliseconds;
    MillisecondsIgnorePhase(s, rest, milliseconds);
  }

  /** Advancing twice is advancing once by the sum. */
  lemma AdvanceTimeAdds(s: Rtc, a: nat, b: nat)
    requires s.prescalerPhase < ATTOSECONDS_PER_MILLISECOND
    ensures AdvanceTime(AdvanceTime(s, a), b) == AdvanceTime(s, a + b)
  {
    hide *;
    if !Running(s) {
      StoppedStays(s, a);
      StoppedStays(s, b);
      StoppedStays(s, a + b);
    } else {
      var ma, ra := SplitPhase(s.prescalerPhase + a);
      var mb, rb := SplitPhase(ra + b);
      AdvanceIs(s, a, ma, ra);
      AdvanceIs(s, a + b, ma + mb, rb);
      SecondAdvance(s, ma, ra, b, mb, rb);
    }
  }

  lemma StoppedStays(s: Rtc, elapsed: nat)
    requires !Running(s)
    ensures AdvanceTime(s, elapsed) == s
  {
  }

  lemma SecondAdvance(s: Rtc, ma: nat, ra: nat, b: nat, mb: nat, rb: nat)
    requires Running(s) && ra < ATTOSECONDS_PER_MILLISECOND && rb < ATTOSECONDS_PER_MILLISECOND
    requires ra + b == mb * ATTOSECONDS_PER_MILLISECOND + rb
    ensures AdvanceTime(WithPhase(AdvanceMilliseconds(s, ma), ra), b)
         == WithPhase(AdvanceMilliseconds(s, ma + mb), rb)
  {
    hide AdvanceTime, Running, AdvanceMilliseconds;
    var u := AdvanceMilliseconds(s, ma);
    MillisecondsKeepRunning(s, ma);
    PhaseKeepsRunning(u, ra);
    AdvanceIs(WithPhase(u, ra), b, mb, rb);
    MillisecondsIgnorePhase(u, ra, mb);
    MillisecondsAdd(s, ma, mb);
  }

  lemma PhaseKeepsRunning(s: Rtc, phase: nat)
    ensures Running(WithPhase(s, phase)) == Running(s)
  {
  }

  lemma SplitPhase(total: nat) returns (milliseconds: nat, rest: nat)
    ensures total == milliseconds * ATTOSECONDS_PER_MILLISECOND + rest && rest < ATTOSECONDS_PER_MILLISECOND
  {
    milliseconds, rest := total / ATTOSECONDS_PER_MILLISECOND, total % ATTOSECONDS_PER_MILLISECOND;
  }
}
