/**
 The 33 MHz clock of the HPC1: attoseconds in, whole ticks out, with the rest of a
 tick carried.  The counter wraps at 24 bits; a one-shot timer counts the same
 ticks.  The code splits off whole seconds to keep numbers small; the results say
 that this changes nothing.
 */
module HpcClock {
  import opened Arithmetic

  const CLOCK_HZ: nat := 33_000_000
  const COUNTER_MODULUS: nat := 0x100_0000
  const TIMER_LIMIT: nat := 0x10_0000

  /** A one-shot timer; an expired one does not count. */
  datatype Timer = Timer(count: nat, expired: bool)

  function AdvanceTimer(timer: Timer, ticks: nat): Timer {
    if timer.expired || timer.count == 0 then timer
    else if ticks >= timer.count then Timer(0, true)
    else timer.(count := timer.count - ticks)
  }

  /** The ticks of an interval and the phase after it, exactly. */
  predicate TicksAre(elapsed: nat, phase: nat, ticks: nat, nextPhase: nat) {
    && nextPhase < ATTOSECONDS_PER_SECOND
    && elapsed * CLOCK_HZ + phase == ticks * ATTOSECONDS_PER_SECOND + nextPhase
  }

  datatype Clock = Clock(counter: nat, phase: nat, timer: Timer)

  predicate Sound(c: Clock) {
    c.counter < COUNTER_MODULUS && c.phase < ATTOSECONDS_PER_SECOND && c.timer.count < TIMER_LIMIT
  }

  /** What an interval does, without regard to the size of the numbers. */
  function After(c: Clock, elapsed: nat): Clock {
    var scaled := elapsed * CLOCK_HZ + c.phase;
    var ticks := scaled / ATTOSECONDS_PER_SECOND;
    Clock((c.counter + ticks) % COUNTER_MODULUS, scaled % ATTOSECONDS_PER_SECOND, AdvanceTimer(c.timer, ticks))
  }

  /** The time at which a running timer is due, by division rounded up. */
  function Deadline(c: Clock): nat
    requires c.phase < ATTOSECONDS_PER_SECOND && c.timer.count > 0
  {
    (c.timer.count * ATTOSECONDS_PER_SECOND - c.phase + CLOCK_HZ - 1) / CLOCK_HZ
  }

  // Arithmetic of the counter

  /** Reducing the factors of a product, and the parts of a sum, does not change it modulo the counter. */
  lemma ReducedTicks(seconds: nat, hertz: nat, partial: nat, counter: nat, s: nat, h: nat, p: nat, modulus: nat)
    requires modulus > 0
    requires s == seconds % modulus && h == hertz % modulus && p == partial % modulus
    ensures (counter + (s * h + p) % modulus) % modulus == (counter + seconds * hertz + partial) % modulus
  {
    var qs, s' := Split(seconds, modulus);
    var qh, h' := Split(hertz, modulus);
    var qp, p' := Split(partial, modulus);
    var small := s * h + p;
    var q, r := Split(small, modulus);
    var rounds := UnreducedTicks(seconds, hertz, partial, counter, qs, s, qh, h, qp, p, modulus);
    AddRounds(counter + small, rounds, modulus);
    AddRounds(counter + r, q, modulus);
    assert counter + small == counter + r + q * modulus;
    assert counter + seconds * hertz + partial == counter + small + rounds * modulus;
  }

  lemma UnreducedTicks(seconds: nat, hertz: nat, partial: nat, counter: nat,
                       qs: nat, s: nat, qh: nat, h: nat, qp: nat, p: nat, modulus: nat) returns (rounds: nat)
    requires seconds == qs * modulus + s && hertz == qh * modulus + h && partial == qp * modulus + p
    ensures counter + seconds * hertz + partial == counter + (s * h + p) + rounds * modulus
  {
    rounds := qs * hertz + s * qh + qp;
    ProductSplit(seconds, hertz, s, qs, h, qh, modulus);
    SumOfRounds(qs * hertz, s * qh, qp, modulus);
    SumOfRounds(qs * hertz, s * qh, 0, modulus);
  }

  lemma ProductSplit(seconds: nat, hertz: nat, s: nat, qs: nat, h: nat, qh: nat, modulus: nat)
    requires seconds == qs * modulus + s && hertz == qh * modulus + h
    ensures seconds * hertz == s * h + (qs * hertz + s * qh) * modulus
  {
    assert seconds * hertz == qs * modulus * hertz + s * hertz;
    assert s * hertz == s * (qh * modulus) + s * h;
    assert s * (qh * modulus) == (s * qh) * modulus;
    assert qs * modulus * hertz == (qs * hertz) * modulus;
    SumOfRounds(qs * hertz, s * qh, 0, modulus);
  }

  lemma SumOfRounds(a: nat, b: nat, c: nat, modulus: nat)
    ensures (a + b + c) * modulus == a * modulus + b * modulus + c * modulus
  {
  }

  // The clock

  lemma AfterIs(c: Clock, elapsed: nat, ticks: nat, nextPhase: nat)
    requires TicksAre(elapsed, c.phase, ticks, nextPhase)
    ensures After(c, elapsed)
         == Clock((c.counter + ticks) % COUNTER_MODULUS, nextPhase, AdvanceTimer(c.timer, ticks))
  {
    UniqueRemainder(elapsed * CLOCK_HZ + c.phase, ticks, nextPhase, ATTOSECONDS_PER_SECOND);
  }

  lemma TicksOf(elapsed: nat, phase: nat) returns (ticks: nat, nextPhase: nat)
    ensures TicksAre(elapsed, phase, ticks, nextPhase)
  {
    ticks, nextPhase := Split(elapsed * CLOCK_HZ + phase, ATTOSECONDS_PER_SECOND);
  }

  lemma TimerAdds(timer: Timer, a: nat, b: nat)
    ensures AdvanceTimer(AdvanceTimer(timer, a), b) == AdvanceTimer(timer, a + b)
  {
  }

  /** The clock does not notice how an interval is cut into calls. */
  lemma ClockAdds(c: Clock, a: nat, b: nat)
    ensures After(After(c, a), b) == After(c, a + b)
  {
    hide After, AdvanceTimer;
    var ticksA, phaseA := TicksOf(a, c.phase);
    AfterIs(c, a, ticksA, phaseA);
    var ticksB, phaseB := TicksOf(b, phaseA);
    AfterIs(After(c, a), b, ticksB, phaseB);
    AfterIs(c, a + b, ticksA + ticksB, phaseB);
    RemainderAdds(c.counter, ticksA, ticksB, COUNTER_MODULUS);
    TimerAdds(c.timer, ticksA, ticksB);
  }

  /** A second holds more ticks than any timer counts, so a whole second always expires it. */
  lemma WholeSecondExpires(c: Clock, elapsed: nat, ticks: nat, nextPhase: nat)
    requires Sound(c) && TicksAre(elapsed, c.phase, ticks, nextPhase)
    requires elapsed >= ATTOSECONDS_PER_SECOND
    ensures AdvanceTimer(c.timer, ticks) == AdvanceTimer(c.timer, U128_MAX)
  {
    assert elapsed * CLOCK_HZ >= ATTOSECONDS_PER_SECOND * CLOCK_HZ;
    assert ticks >= CLOCK_HZ;
  }

  /** The deadline is the least time at which the timer has expired. */
  lemma ExpiresAtDeadline(c: Clock, elapsed: nat)
    requires Sound(c) && !c.timer.expired && c.timer.count > 0
    ensures After(c, elapsed).timer.expired <==> elapsed >= Deadline(c)
  {
    var ticks, nextPhase := TicksOf(elapsed, c.phase);
    AfterIs(c, elapsed, ticks, nextPhase);
    var needed := c.timer.count * ATTOSECONDS_PER_SECOND - c.phase;
    var q, r := Split(needed + CLOCK_HZ - 1, CLOCK_HZ);
    UniqueRemainder(needed + CLOCK_HZ - 1, q, r, CLOCK_HZ);
    assert elapsed * CLOCK_HZ >= needed <==> ticks >= c.timer.count;
    assert elapsed * CLOCK_HZ >= needed <==> elapsed >= q;
  }

  /** The counter that the code computes, from parts reduced beforehand, is the exact one. */
  lemma CounterIsExact(c: Clock, elapsed: nat, seconds: nat, partial: nat, partialTicks: nat, nextPhase: nat)
    requires elapsed == seconds * ATTOSECONDS_PER_SECOND + partial
    requires TicksAre(partial, c.phase, partialTicks, nextPhase)
    ensures TicksAre(elapsed, c.phase, seconds * CLOCK_HZ + partialTicks, nextPhase)
    ensures (c.counter + (seconds % COUNTER_MODULUS * (CLOCK_HZ % COUNTER_MODULUS)
                          + partialTicks % COUNTER_MODULUS) % COUNTER_MODULUS) % COUNTER_MODULUS
         == (c.counter + (seconds * CLOCK_HZ + partialTicks)) % COUNTER_MODULUS
  {
    ReducedTicks(seconds, CLOCK_HZ, partialTicks, c.counter, seconds % COUNTER_MODULUS,
                 CLOCK_HZ % COUNTER_MODULUS, partialTicks % COUNTER_MODULUS, COUNTER_MODULUS);
  }

  lemma TimerShrinks(timer: Timer, ticks: nat)
    ensures AdvanceTimer(timer, ticks).count <= timer.count
  {
  }
}
