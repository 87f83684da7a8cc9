/**
 The clock domain of the HPC1: the free-running counter, the carried phase, and the
 Ethernet channel whose receive timer counts the same ticks.
 */
module Hpc1Device {
  import opened Arithmetic
  import opened HpcClock
  import opened Ethernet
  import opened EthernetDevice

  class Hpc1 {
    var freeRunningCounter: nat
    var clockPhase: nat
    const ethernet: EthernetChannel

    function Value(): Clock
      reads this, ethernet
    {
      Clock(freeRunningCounter, clockPhase, ethernet.timer)
    }

    constructor ()
      ensures Sound(Value()) && fresh(ethernet)
    {
      freeRunningCounter, clockPhase := 0, 0;
      ethernet := new EthernetChannel();
    }

    /** `elapsed` is a count of attoseconds of any size; `ticks` are the whole ticks it completes. */
    method Elapse(elapsed: nat) returns (ghost ticks: nat)
      requires Sound(Value())
      modifies this, ethernet
      ensures Sound(Value()) && Value() == After(old(Value()), elapsed)
      ensures TicksAre(elapsed, old(clockPhase), ticks, clockPhase)
      ensures ethernet.Value() == AdvanceTime(old(ethernet.Value()), elapsed, ticks)
    {
      hide After, AdvanceTimer;
      ghost var before := Value();
      var wholeSeconds := elapsed / ATTOSECONDS_PER_SECOND;
      var partialAttoseconds := elapsed % ATTOSECONDS_PER_SECOND;
      var scaledPartial := partialAttoseconds * CLOCK_HZ + clockPhase;
      var partialTicks := scaledPartial / ATTOSECONDS_PER_SECOND;
      clockPhase := scaledPartial % ATTOSECONDS_PER_SECOND;
      CounterIsExact(before, elapsed, wholeSeconds, partialAttoseconds, partialTicks, clockPhase);
      ticks := wholeSeconds * CLOCK_HZ + partialTicks;
      AfterIs(before, elapsed, ticks, clockPhase);

      var wholeTicks := (wholeSeconds % COUNTER_MODULUS) * (CLOCK_HZ % COUNTER_MODULUS);
      var wrappingTicks := (wholeTicks + partialTicks % COUNTER_MODULUS) % COUNTER_MODULUS;
      freeRunningCounter := (freeRunningCounter + wrappingTicks) % COUNTER_MODULUS;

      var timerTicks := if wholeSeconds == 0 then partialTicks else U128_MAX;
      if wholeSeconds != 0 {
        WholeSecondExpires(before, elapsed, ticks, clockPhase);
      }
      ethernet.Elapse(elapsed, timerTicks);
      TimerShrinks(before.timer, ticks);
    }
  }
}
