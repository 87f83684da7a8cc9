/**
 Wall-clock time as numbers: what the DP8573A counters mean once decoded, and
 how it moves.  Ticking is one second at a time; `SecondsLaterLands` gives the
 closed form by days and seconds of the day.
 */
module ClockTime {
  import opened Arithmetic
  import opened Calendar

  const SECONDS_PER_DAY := 24 * 60 * 60

  datatype ClockState = ClockState(
    hundredths: nat,
    seconds: nat,
    minutes: nat,
    hour: nat,
    date: CalendarDate)
  {
    predicate Valid() {
      && hundredths < 100
      && seconds < 60
      && minutes < 60
      && hour < 24
      && date.Valid()
    }

    function SecondsOfDay(): nat {
      hour * 3600 + minutes * 60 + seconds
    }
  }

  /** The clock one second later; the hundredths are not part of the step. */
  function NextSecond(clock: ClockState): (next: ClockState)
    ensures clock.Valid() ==> next.Valid()
  {
    if clock.seconds < 59 then clock.(seconds := clock.seconds + 1)
    else if clock.minutes < 59 then clock.(seconds := 0, minutes := clock.minutes + 1)
    else if clock.hour < 23 then clock.(seconds := 0, minutes := 0, hour := clock.hour + 1)
    else clock.(seconds := 0, minutes := 0, hour := 0, date := NextDay(clock.date))
  }

  function SecondsLater(clock: ClockState, seconds: nat): (later: ClockState)
    ensures clock.Valid() ==> later.Valid()
    ensures later.hundredths == clock.hundredths
  {
    if seconds == 0 then clock else NextSecond(SecondsLater(clock, seconds - 1))
  }

  lemma NextSecondOfDay(clock: ClockState)
    requires clock.Valid()
    ensures var total := clock.SecondsOfDay();
            && total < SECONDS_PER_DAY
            && NextSecond(clock).SecondsOfDay() == (if total + 1 == SECONDS_PER_DAY then 0 else total + 1)
            && NextSecond(clock).date == if total + 1 == SECONDS_PER_DAY then NextDay(clock.date) else clock.date
  {
    hide NextDay;
  }

  /** A number of seconds later the clock shows the remainder of the day, that many days on. */
  lemma {:induction false} SecondsLaterLands(clock: ClockState, seconds: nat, days: nat, rest: nat)
    requires clock.Valid() && rest < SECONDS_PER_DAY
    requires clock.SecondsOfDay() + seconds == days * SECONDS_PER_DAY + rest
    ensures SecondsLater(clock, seconds).SecondsOfDay() == rest
    ensures SecondsLater(clock, seconds).date == DaysLater(clock.date, days)
    decreases seconds
  {
    NextSecondOfDay(clock);
    hide NextSecond, NextDay;
    if seconds == 0 {
      assert days == 0;
    } else {
      NextSecondOfDay(SecondsLater(clock, seconds - 1));
      if rest > 0 {
        SecondsLaterLands(clock, seconds - 1, days, rest - 1);
      } else {
        SecondsLaterLands(clock, seconds - 1, days - 1, SECONDS_PER_DAY - 1);
      }
    }
  }

  // Periodic targets

  /** Whether counting `steps` on from `current` meets a multiple of `period`. */
  predicate CrossesCyclicTarget(current: nat, steps: nat, period: nat)
    requires period > 0
  {
    steps != 0 && steps >= period - current % period
  }

  predicate IsMultiple(value: nat, period: nat)
    requires period > 0
  {
    value % period == 0
  }

  /** Some count on the way is a multiple of the period. */
  ghost predicate MeetsMultiple(current: nat, steps: nat, period: nat)
    requires period > 0
  {
    exists count: nat :: current < count <= current + steps && IsMultiple(count, period)
  }

  /** The closed form is exact. */
  lemma CrossingIsExact(current: nat, steps: nat, period: nat)
    requires period > 0
    ensures CrossesCyclicTarget(current, steps, period) <==> MeetsMultiple(current, steps, period)
  {
    var distance := period - current % period;
    FirstMultiple(current, distance, period);
    assert IsMultiple(current + distance, period);
    if MeetsMultiple(current, steps, period) {
      var count: nat :| current < count <= current + steps && IsMultiple(count, period);
      NoEarlierMultiple(current, count - current, period);
    }
  }

  lemma FirstMultiple(current: nat, distance: nat, period: nat)
    requires period > 0 && distance == period - current % period
    ensures IsMultiple(current + distance, period)
  {
    var times := current / period;
    assert current + distance == times * period + period;
    assert times * period + period == (times + 1) * period;
    UniqueRemainder(current + distance, times + 1, 0, period);
  }

  lemma NoEarlierMultiple(current: nat, i: nat, period: nat)
    requires period > 0 && i >= 1 && IsMultiple(current + i, period)
    ensures i >= period - current % period
  {
    var rest := current % period + i;
    if rest < period {
      UniqueRemainder(current + i, current / period, rest, period);
    }
  }
}
