/**
 One channel of the Z85230: FIFOs, character timing and the latches behind its
 interrupts.  Time is carried without drift and may be split anywhere; bytes
 leave in the order they were accepted.
 */
module SerialChannel {
  import opened Options
  import opened Arithmetic
  import opened CharacterTiming

  const RECEIVE_FIFO_BYTES := 8
  const TRANSMIT_FIFO_BYTES := 4

  const ASYNC_EIGHT_BIT_RESIDUE: bv8 := 0x06
  const PARITY_ERROR: bv8 := 0x10
  const RECEIVE_OVERRUN_ERROR: bv8 := 0x20
  const CRC_FRAMING_ERROR: bv8 := 0x40
  const END_OF_FRAME: bv8 := 0x80
  const LATCHED_RECEIVE_ERRORS: bv8 := 0x30

  datatype ActiveCharacter = ActiveCharacter(value: bv8, remaining: nat, loopback: bool)
  datatype ReceiveCharacter = ReceiveCharacter(value: bv8, status: bv8)

  type WriteRegisters = s: seq<bv8> | |s| == 16 witness seq(16, _ => 0)
  type ReceiveQueue = s: seq<ReceiveCharacter> | |s| <= 8
  type TransmitQueue = s: seq<bv8> | |s| <= 4

  /** A channel, with its ring buffers as the queues they hold. */
  datatype Channel = Channel(
    writeRegisters: WriteRegisters,
    primeSeven: bv8,
    receiveFifo: ReceiveQueue,
    firstCharacterArmed: bool,
    receiveErrorLatch: bv8,
    receiveFifoLocked: bool,
    transmitFifo: TransmitQueue,
    transmitInterruptPending: bool,
    active: Option<ActiveCharacter>,
    timingRemainder: nat)

  const ResetRegisters: WriteRegisters := [0, 0, 0, 0, 0x04, 0, 0, 0, 0, 0, 0, 0x08, 0, 0, 0, 0xf8]
  const ResetChannel: Channel := Channel(ResetRegisters, 0x20, [], false, 0, false, [], false, None, 0)

  // Configuration

  function StopHalfBits(wr4: bv8): Option<nat> {
    var field := (wr4 >> 2) & 0x03;
    if field == 0 then None else if field == 1 then Some(2) else if field == 2 then Some(3) else Some(4)
  }

  function DataBits(wr5: bv8): (bits: nat)
    ensures 5 <= bits <= 8
  {
    var field := (wr5 >> 5) & 0x03;
    if field == 0 then 5 else if field == 1 then 7 else if field == 2 then 6 else 8
  }

  function ClockFactor(wr4: bv8): (factor: nat)
    ensures factor >= 1
  {
    var field := wr4 >> 6;
    if field == 0 then 1 else if field == 1 then 16 else if field == 2 then 32 else 64
  }

  predicate CtsAsserted() {
    true
  }

  /** The length of a character in clock periods, if the transmitter is running. */
  function FrameUnits(registers: WriteRegisters): (units: Option<nat>)
    ensures units.Some? ==> units.value >= 28
  {
    var wr4, wr5, wr11, wr14 := registers[4], registers[5], registers[11], registers[14];
    var stop := StopHalfBits(wr4);
    if wr5 & 0x08 == 0 || (registers[3] & 0x20 != 0 && !CtsAsserted())
       || wr11 & 0x18 != 0x10 || wr14 & 0x01 == 0 || stop.None?
    then None
    else
      var parity := if wr4 & 0x01 == 0 then 0 else 2;
      var halfBits := 2 + DataBits(wr5) * 2 + parity + stop.value;
      var timeConstant := registers[12] as nat + 256 * (registers[13] as nat);
      FrameIsLong(halfBits, timeConstant + 2, ClockFactor(wr4));
      Some(halfBits * (timeConstant + 2) * ClockFactor(wr4))
  }

  lemma FrameIsLong(halfBits: nat, divisor: nat, factor: nat)
    requires halfBits >= 14 && divisor >= 2 && factor >= 1
    ensures halfBits * divisor * factor >= 28
  {
    assert halfBits * divisor >= 14 * 2;
  }

  predicate LoopbackEnabled(c: Channel) {
    c.writeRegisters[14] & 0x10 != 0
  }

  predicate TransmitInterruptEnabled(c: Channel) {
    c.writeRegisters[1] & 0x02 != 0
  }

  // Receiving

  /** A full FIFO loses its newest character to the overrun. */
  function ReceiveInto(queue: ReceiveQueue, value: bv8): ReceiveQueue {
    if |queue| == RECEIVE_FIFO_BYTES then
      queue[|queue| - 1 := ReceiveCharacter(value, ASYNC_EIGHT_BIT_RESIDUE | RECEIVE_OVERRUN_ERROR)]
    else queue + [ReceiveCharacter(value, ASYNC_EIGHT_BIT_RESIDUE)]
  }

  function Receive(c: Channel, value: bv8): Channel {
    c.(receiveFifo := ReceiveInto(c.receiveFifo, value))
  }

  function ReceiveLoopback(c: Channel, value: bv8): Channel {
    if c.writeRegisters[3] & 0x01 != 0 then Receive(c, value) else c
  }

  function ReceiveExternal(c: Channel, value: bv8): Channel {
    if LoopbackEnabled(c) || c.writeRegisters[3] & 0x01 == 0 then c else Receive(c, value)
  }

  function ReceiveInterruptMode(c: Channel): bv8 {
    (c.writeRegisters[1] >> 3) & 0x03
  }

  function SpecialConditionMask(c: Channel): bv8 {
    RECEIVE_OVERRUN_ERROR | CRC_FRAMING_ERROR | END_OF_FRAME
    | (if c.writeRegisters[1] & 0x04 != 0 then PARITY_ERROR else 0)
  }

  /** The oldest character has a special condition in one of the modes that stop at it. */
  predicate HeadIsSpecial(c: Channel)
    requires c.receiveFifo != []
  {
    var mode := ReceiveInterruptMode(c);
    (mode == 1 || mode == 3) && c.receiveFifo[0].status & SpecialConditionMask(c) != 0
  }

  function LatchErrors(latch: bv8, status: bv8): bv8 {
    latch | (status & LATCHED_RECEIVE_ERRORS)
  }

  /** Whether reading a plain character also disarms the first-character interrupt. */
  predicate DisarmsOnRead(c: Channel) {
    ReceiveInterruptMode(c) == 1
  }

  /** Reading data: a character with a special condition stays and locks the FIFO in two of the modes. */
  function ReadData(c: Channel): (Channel, bv8) {
    if c.receiveFifo == [] then (c, 0)
    else
      var character := c.receiveFifo[0];
      if c.receiveFifoLocked then (c, character.value)
      else
        var c1 := c.(receiveErrorLatch := LatchErrors(c.receiveErrorLatch, character.status));
        if HeadIsSpecial(c) then
          (c1.(receiveFifoLocked := true, firstCharacterArmed := false), character.value)
        else
          (c1.(receiveFifo := c.receiveFifo[1..],
               firstCharacterArmed := c.firstCharacterArmed && !DisarmsOnRead(c)),
           character.value)
  }

  function ResetReceiveErrors(c: Channel): Channel {
    var drops := c.receiveFifo != [] && (c.receiveFifoLocked || HeadIsSpecial(c));
    c.(receiveFifo := if drops then c.receiveFifo[1..] else c.receiveFifo,
       receiveErrorLatch := 0, receiveFifoLocked := false)
  }

  function ReceiveThreshold(c: Channel): nat {
    if c.primeSeven & 0x08 == 0 then 1 else 4
  }

  predicate SpecialWithin(c: Channel, count: nat) {
    || c.receiveErrorLatch & SpecialConditionMask(c) != 0
    || exists i: nat :: i < count && i < |c.receiveFifo| && c.receiveFifo[i].status & SpecialConditionMask(c) != 0
  }

  predicate SpecialPending(c: Channel) {
    c.receiveFifoLocked || c.receiveErrorLatch & SpecialConditionMask(c) != 0
  }

  predicate ReceiveInterruptPending(c: Channel) {
    var mode := ReceiveInterruptMode(c);
    if mode == 0 then false
    else if mode == 1 then SpecialPending(c) || (c.firstCharacterArmed && c.receiveFifo != [])
    else if mode == 2 then |c.receiveFifo| >= ReceiveThreshold(c) || SpecialWithin(c, ReceiveThreshold(c))
    else SpecialPending(c)
  }

  // Transmitting

  /** A data write; a full FIFO refuses it. */
  function WriteData(c: Channel, value: bv8): (Channel, bool) {
    if |c.transmitFifo| == TRANSMIT_FIFO_BYTES then (c, false)
    else (c.(transmitInterruptPending := false, transmitFifo := c.transmitFifo + [value]), true)
  }

  predicate CanStart(c: Channel) {
    c.active.None? && c.transmitFifo != [] && FrameUnits(c.writeRegisters).Some?
  }

  /** The length of a character, in attoseconds times the clock frequency. */
  function CharacterLength(c: Channel): nat
    requires FrameUnits(c.writeRegisters).Some?
  {
    FrameUnits(c.writeRegisters).value * ATTOSECONDS_PER_SECOND
  }

  function StartTransmitter(c: Channel, clock: nat): Channel
    requires clock > 0
  {
    if !CanStart(c) then c
    else
      c.(transmitFifo := c.transmitFifo[1..],
         active := Some(ActiveCharacter(c.transmitFifo[0], Duration(CharacterLength(c), c.timingRemainder, clock),
                                        LoopbackEnabled(c))),
         timingRemainder := NextRest(CharacterLength(c), c.timingRemainder, clock))
  }

  /** A write to the data port: an accepted byte goes straight to an idle line, and latches no interrupt. */
  function WritePort(c: Channel, clock: nat, value: bv8): (Channel, bool)
    requires clock > 0
  {
    var (queued, taken) := WriteData(c, value);
    (if taken then StartTransmitter(queued, clock) else queued, taken)
  }

  function LatchTransmitInterrupt(c: Channel): Channel {
    if !TransmitInterruptEnabled(c) then c
    else
      var ready := if c.primeSeven & 0x20 != 0 then c.transmitFifo == []
                   else |c.transmitFifo| < TRANSMIT_FIFO_BYTES;
      c.(transmitInterruptPending := c.transmitInterruptPending || ready)
  }

  /** The start of a round of the timing loop: the next character, if the line is free. */
  function Begin(c: Channel, clock: nat): Channel
    requires clock > 0
  {
    if CanStart(c) then LatchTransmitInterrupt(StartTransmitter(c, clock)) else c
  }

  /** The end of a character: it is out, and loops back if it was sent that way. */
  function EndCharacter(c: Channel): Channel
    requires c.active.Some?
  {
    var c1 := LatchTransmitInterrupt(c.(active := None));
    if c.active.value.loopback then ReceiveLoopback(c1, c.active.value.value) else c1
  }

  lemma BeginProgresses(c: Channel, clock: nat)
    requires clock > 0
    ensures c.active.None? && Begin(c, clock).active.Some? ==> |Begin(c, clock).transmitFifo| < |c.transmitFifo|
    ensures c.active.Some? ==> Begin(c, clock) == c
    ensures Begin(c, clock).active.None? ==> Begin(c, clock) == c
  {
  }

  lemma EndKeepsQueue(c: Channel)
    requires c.active.Some?
    ensures EndCharacter(c).transmitFifo == c.transmitFifo && EndCharacter(c).active.None?
    ensures EndCharacter(c).writeRegisters == c.writeRegisters && EndCharacter(c).timingRemainder == c.timingRemainder
  {
  }

  datatype Advanced = Advanced(channel: Channel, output: seq<bv8>)

  function AdvanceTime(c: Channel, clock: nat, elapsed: nat): Advanced
    requires clock > 0
    decreases |c.transmitFifo|, if c.active.Some? then 1 else 0
  {
    BeginProgresses(c, clock);
    var c1 := Begin(c, clock);
    if c1.active.None? then Advanced(c1, [])
    else
      var active := c1.active.value;
      if elapsed < active.remaining then
        Advanced(c1.(active := Some(active.(remaining := active.remaining - elapsed))), [])
      else
        EndKeepsQueue(c1);
        var rest := AdvanceTime(EndCharacter(c1), clock, elapsed - active.remaining);
        Advanced(rest.channel, [active.value] + rest.output)
  }

  // Splitting time

  function Then(first: Advanced, second: Advanced): Advanced {
    Advanced(second.channel, first.output + second.output)
  }

  lemma AdvanceWithin(c: Channel, clock: nat, a: nat, b: nat)
    requires clock > 0 && Begin(c, clock).active.Some? && a < Begin(c, clock).active.value.remaining
    ensures AdvanceTime(c, clock, a + b) == Then(AdvanceTime(c, clock, a), AdvanceTime(AdvanceTime(c, clock, a).channel, clock, b))
  {
    BeginProgresses(c, clock);
    var c1 := Begin(c, clock);
    var active := c1.active.value;
    var later := c1.(active := Some(active.(remaining := active.remaining - a)));
    BeginProgresses(later, clock);
    hide Begin;
    assert AdvanceTime(c, clock, a) == Advanced(later, []);
    EndIgnoresRemaining(c1, later);
    hide EndCharacter;
    if a + b >= active.remaining {
      var rest := AdvanceTime(EndCharacter(c1), clock, a + b - active.remaining);
      assert AdvanceTime(later, clock, b) == Advanced(rest.channel, [active.value] + rest.output);
    }
  }

  lemma EndIgnoresRemaining(c: Channel, d: Channel)
    requires c.active.Some? && d == c.(active := d.active) && d.active.Some?
    requires d.active.value == c.active.value.(remaining := d.active.value.remaining)
    ensures EndCharacter(c) == EndCharacter(d)
  {
    assert c.(active := None) == d.(active := None);
  }

  lemma AdvanceAcross(c: Channel, clock: nat, first: Advanced, second: Advanced, a: nat, rest: nat, b: nat)
    requires clock > 0 && Begin(c, clock).active.Some? && a == rest + Begin(c, clock).active.value.remaining
    requires first == AdvanceTime(EndCharacter(Begin(c, clock)), clock, rest)
    requires second == AdvanceTime(first.channel, clock, b)
    requires AdvanceTime(EndCharacter(Begin(c, clock)), clock, rest + b) == Then(first, second)
    ensures AdvanceTime(c, clock, a + b) == Then(AdvanceTime(c, clock, a), AdvanceTime(AdvanceTime(c, clock, a).channel, clock, b))
  {
    hide Begin, EndCharacter;
    var value := Begin(c, clock).active.value.value;
    assert AdvanceTime(c, clock, a) == Advanced(first.channel, [value] + first.output);
    assert [value] + (first.output + second.output) == ([value] + first.output) + second.output;
  }

  /** Two advances are one by the sum: output, FIFOs, loopback and latches alike. */
  lemma {:induction false} AdvanceAdds(c: Channel, clock: nat, a: nat, b: nat)
    requires clock > 0
    ensures AdvanceTime(c, clock, a + b) == Then(AdvanceTime(c, clock, a), AdvanceTime(AdvanceTime(c, clock, a).channel, clock, b))
    decreases |c.transmitFifo|, if c.active.Some? then 1 else 0
  {
    hide Begin, EndCharacter;
    BeginProgresses(c, clock);
    var c1 := Begin(c, clock);
    if c1.active.Some? {
      var remaining := c1.active.value.remaining;
      if a < remaining {
        AdvanceWithin(c, clock, a, b);
      } else {
        EndKeepsQueue(c1);
        var next := EndCharacter(c1);
        AdvanceAdds(next, clock, a - remaining, b);
        var first := AdvanceTime(next, clock, a - remaining);
        AdvanceAcross(c, clock, first, AdvanceTime(first.channel, clock, b), a, a - remaining, b);
      }
    }
  }

  // Order

  /** The bytes accepted that have not come out. */
  function InFlight(c: Channel): seq<bv8> {
    (if c.active.Some? then [c.active.value.value] else []) + c.transmitFifo
  }

  lemma BeginKeepsBytes(c: Channel, clock: nat)
    requires clock > 0
    ensures InFlight(Begin(c, clock)) == InFlight(c)
  {
    hide FrameUnits, Duration, NextRest;
    if CanStart(c) {
      assert c.transmitFifo == [c.transmitFifo[0]] + c.transmitFifo[1..];
    }
  }

  /** Bytes come out in the order they went in, none lost and none twice. */
  lemma {:induction false} FirstInFirstOut(c: Channel, clock: nat, elapsed: nat)
    requires clock > 0
    ensures AdvanceTime(c, clock, elapsed).output + InFlight(AdvanceTime(c, clock, elapsed).channel) == InFlight(c)
    decreases |c.transmitFifo|, if c.active.Some? then 1 else 0
  {
    hide Begin, EndCharacter;
    BeginProgresses(c, clock);
    BeginKeepsBytes(c, clock);
    var c1 := Begin(c, clock);
    if c1.active.Some? && elapsed >= c1.active.value.remaining {
      EndKeepsQueue(c1);
      var next := EndCharacter(c1);
      var value := c1.active.value.value;
      var rest := AdvanceTime(next, clock, elapsed - c1.active.value.remaining);
      FirstInFirstOut(next, clock, elapsed - c1.active.value.remaining);
      assert InFlight(c1) == [value] + InFlight(next);
      assert ([value] + rest.output) + InFlight(rest.channel) == [value] + (rest.output + InFlight(rest.channel));
    }
  }

  // Exact timing

  /** A character takes some time at any 64-bit clock frequency. */
  lemma CharactersTakeTime(c: Channel, clock: nat)
    requires 0 < clock < 0x1_0000_0000_0000_0000 && FrameUnits(c.writeRegisters).Some?
    ensures Duration(CharacterLength(c), c.timingRemainder, clock) >= 1
  {
    hide FrameUnits, Duration;
    var units := FrameUnits(c.writeRegisters).value;
    assert units * ATTOSECONDS_PER_SECOND >= 28 * ATTOSECONDS_PER_SECOND;
    DurationPositive(CharacterLength(c), c.timingRemainder, clock);
  }

  /**
   The line is sending its `count`-th character since some moment, and has not
   been idle: `time` has passed, and the character ends when the exact total of
   `count` characters is reached.
   */
  predicate Busy(c: Channel, clock: nat, length: nat, start: nat, count: nat, time: nat)
    requires clock > 0
  {
    && FrameUnits(c.writeRegisters).Some? && length == CharacterLength(c)
    && c.active.Some?
    && c.timingRemainder == RestAfter(length, start, clock, count)
    && time + c.active.value.remaining == TotalDuration(length, start, clock, count)
  }

  /** Passing time leaves no character that could start. */
  lemma {:induction false} AdvanceStartsAll(c: Channel, clock: nat, elapsed: nat)
    requires clock > 0
    ensures !CanStart(AdvanceTime(c, clock, elapsed).channel)
    decreases |c.transmitFifo|, if c.active.Some? then 1 else 0
  {
    BeginProgresses(c, clock);
    BeginStarts(c, clock);
    var c1 := Begin(c, clock);
    hide Begin, EndCharacter, FrameUnits;
    if c1.active.Some? && elapsed >= c1.active.value.remaining {
      EndKeepsQueue(c1);
      AdvanceStartsAll(EndCharacter(c1), clock, elapsed - c1.active.value.remaining);
    }
  }

  lemma BeginStarts(c: Channel, clock: nat)
    requires clock > 0
    ensures !CanStart(Begin(c, clock))
  {
    hide FrameUnits, Duration, NextRest;
  }

  /** Starting an idle line makes it busy with its first character. */
  lemma StartIsBusy(c: Channel, clock: nat)
    requires clock > 0 && CanStart(c)
    ensures Busy(Begin(c, clock), clock, CharacterLength(c), c.timingRemainder, 1, 0)
  {
    hide FrameUnits, Duration, NextRest;
    var length := CharacterLength(c);
    assert RestAfter(length, c.timingRemainder, clock, 0) == c.timingRemainder;
    assert TotalDuration(length, c.timingRemainder, clock, 0) == 0;
  }

  /** A byte written to a line that waits for one begins an exact run of characters. */
  lemma WritingStartsBusy(c: Channel, clock: nat, value: bv8)
    requires clock > 0 && c.active.None? && c.transmitFifo == [] && FrameUnits(c.writeRegisters).Some?
    ensures var (after, taken) := WritePort(c, clock, value);
            taken && InFlight(after) == [value] && Busy(after, clock, CharacterLength(c), c.timingRemainder, 1, 0)
  {
    hide FrameUnits, Duration, NextRest;
    var length := CharacterLength(c);
    assert RestAfter(length, c.timingRemainder, clock, 0) == c.timingRemainder;
    assert TotalDuration(length, c.timingRemainder, clock, 0) == 0;
    assert ([] + [value])[1..] == [];
  }

  /** Accepting more bytes does not disturb the timing. */
  lemma WritingStaysBusy(c: Channel, clock: nat, length: nat, start: nat, count: nat, time: nat, value: bv8)
    requires clock > 0 && Busy(c, clock, length, start, count, time)
    ensures Busy(WritePort(c, clock, value).0, clock, length, start, count, time)
  {
  }

  lemma NextCharacterIsBusy(c: Channel, clock: nat, length: nat, start: nat, count: nat, time: nat)
    requires clock > 0 && Busy(c, clock, length, start, count, time)
    requires Begin(EndCharacter(c), clock).active.Some?
    ensures Busy(Begin(EndCharacter(c), clock), clock, length, start, count + 1, time + c.active.value.remaining)
  {
    EndKeepsQueue(c);
    hide FrameUnits, Duration, NextRest, EndCharacter;
  }

  /**
   However much time passes: while the line stays busy, the n-th character since
   the start ends at the exact total of n characters.
   */
  lemma {:induction false} BusyStaysExact(c: Channel, clock: nat, length: nat, start: nat, count: nat, time: nat,
                                          elapsed: nat)
    requires clock > 0 && Busy(c, clock, length, start, count, time)
    ensures var after := AdvanceTime(c, clock, elapsed);
            after.channel.active.Some? ==>
              Busy(after.channel, clock, length, start, count + |after.output|, time + elapsed)
    decreases |c.transmitFifo|
  {
    hide FrameUnits, Busy, EndCharacter;
    BeginProgresses(c, clock);
    assert c.active.Some? by { BusyIsActive(c, clock, length, start, count, time); }
    hide Begin;
    var active := c.active.value;
    if elapsed < active.remaining {
      BusyLater(c, clock, length, start, count, time, elapsed);
    } else {
      EndKeepsQueue(c);
      var next := EndCharacter(c);
      BeginProgresses(next, clock);
      var begun := Begin(next, clock);
      var rest := elapsed - active.remaining;
      if begun.active.Some? {
        NextCharacterIsBusy(c, clock, length, start, count, time);
        BusyStaysExact(begun, clock, length, start, count + 1, time + active.remaining, rest);
        BeginTwice(next, clock, rest);
        assert AdvanceTime(c, clock, elapsed)
            == Advanced(AdvanceTime(begun, clock, rest).channel, [active.value] + AdvanceTime(begun, clock, rest).output);
      }
    }
  }

  lemma {:induction false} TotalGrows(length: nat, start: nat, clock: nat, count: nat, more: nat)
    requires clock > 0
    ensures TotalDuration(length, start, clock, count) <= TotalDuration(length, start, clock, count + more)
  {
    hide Duration, RestAfter;
    if more != 0 {
      TotalGrows(length, start, clock, count, more - 1);
    }
  }

  /**
   A busy line with nothing more accepted goes idle exactly when the exact total
   of the characters on it and in the FIFO has passed, and by then all are out.
   */
  lemma {:induction false} IdleWhenSent(c: Channel, clock: nat, length: nat, start: nat, count: nat, time: nat,
                                        elapsed: nat)
    requires clock > 0 && Busy(c, clock, length, start, count, time)
    ensures var after := AdvanceTime(c, clock, elapsed);
            && (after.channel.active.None? <==>
                  time + elapsed >= TotalDuration(length, start, clock, count + |c.transmitFifo|))
            && (after.channel.active.None? ==> after.output == InFlight(c))
    decreases |c.transmitFifo|
  {
    hide FrameUnits, EndCharacter, Duration, RestAfter, NextRest;
    BeginProgresses(c, clock);
    var active := c.active.value;
    var rest := elapsed - active.remaining;
    TotalGrows(length, start, clock, count, |c.transmitFifo|);
    FirstInFirstOut(c, clock, elapsed);
    if rest >= 0 {
      EndKeepsQueue(c);
      var next := EndCharacter(c);
      BeginProgresses(next, clock);
      if c.transmitFifo != [] {
        NextCharacterIsBusy(c, clock, length, start, count, time);
        QueueShrinks(next, clock);
        var begun := Begin(next, clock);
        hide Begin, Busy;
        IdleWhenSent(begun, clock, length, start, count + 1, time + active.remaining, rest);
        BeginTwice(next, clock, rest);
      }
    }
    IdleIsEmpty(c, clock, length, start, count, time, elapsed);
  }

  lemma QueueShrinks(c: Channel, clock: nat)
    requires clock > 0 && CanStart(c)
    ensures |Begin(c, clock).transmitFifo| == |c.transmitFifo| - 1
  {
    hide FrameUnits, Duration, NextRest;
  }

  /** A line that was busy and is idle has nothing left to send. */
  lemma {:induction false} IdleIsEmpty(c: Channel, clock: nat, length: nat, start: nat, count: nat, time: nat,
                                       elapsed: nat)
    requires clock > 0 && Busy(c, clock, length, start, count, time)
    ensures var after := AdvanceTime(c, clock, elapsed).channel;
            after.active.None? ==> InFlight(after) == []
    decreases |c.transmitFifo|
  {
    hide FrameUnits, EndCharacter, Duration, RestAfter, NextRest;
    BeginProgresses(c, clock);
    var rest := elapsed - c.active.value.remaining;
    if rest >= 0 {
      EndKeepsQueue(c);
      var next := EndCharacter(c);
      BeginProgresses(next, clock);
      if c.transmitFifo != [] {
        NextCharacterIsBusy(c, clock, length, start, count, time);
        QueueShrinks(next, clock);
        var begun := Begin(next, clock);
        var ended := time + c.active.value.remaining;
        hide Begin, Busy;
        IdleIsEmpty(begun, clock, length, start, count + 1, ended, rest);
        BeginTwice(next, clock, rest);
      }
    }
  }

  lemma BusyIsActive(c: Channel, clock: nat, length: nat, start: nat, count: nat, time: nat)
    requires clock > 0 && Busy(c, clock, length, start, count, time)
    ensures c.active.Some?
  {
  }

  lemma BusyLater(c: Channel, clock: nat, length: nat, start: nat, count: nat, time: nat, elapsed: nat)
    requires clock > 0 && Busy(c, clock, length, start, count, time) && elapsed < c.active.value.remaining
    ensures Busy(c.(active := Some(c.active.value.(remaining := c.active.value.remaining - elapsed))),
                 clock, length, start, count, time + elapsed)
  {
  }

  lemma BeginTwice(c: Channel, clock: nat, elapsed: nat)
    requires clock > 0 && Begin(c, clock).active.Some?
    ensures AdvanceTime(c, clock, elapsed) == AdvanceTime(Begin(c, clock), clock, elapsed)
  {
    BeginProgresses(Begin(c, clock), clock);
    hide EndCharacter;
  }

  /** Serial transmission does not drift: the n-th character ends at the exact time, rounded down. */
  lemma NoDriftOnTheLine(c: Channel, clock: nat, length: nat, start: nat, count: nat, time: nat, exact: nat)
    requires clock > 0 && start < clock && Busy(c, clock, length, start, count, time)
    requires exact == start + count * length
    ensures time + c.active.value.remaining == exact / clock
    ensures c.timingRemainder == exact % clock
  {
    hide FrameUnits;
    NoDrift(length, start, clock, count, exact);
  }

  // The receive FIFO

  /** The lock is set only on a character, which stays until errors are reset. */
  predicate LockHolds(c: Channel) {
    c.receiveFifoLocked ==> c.receiveFifo != []
  }

  lemma BeginKeepsLock(c: Channel, clock: nat)
    requires clock > 0 && LockHolds(c)
    ensures LockHolds(Begin(c, clock))
  {
    assert Begin(c, clock).receiveFifo == c.receiveFifo && Begin(c, clock).receiveFifoLocked == c.receiveFifoLocked;
  }

  lemma EndKeepsLock(c: Channel)
    requires LockHolds(c) && c.active.Some?
    ensures LockHolds(EndCharacter(c))
  {
  }

  lemma {:induction false} AdvanceKeepsLock(c: Channel, clock: nat, elapsed: nat)
    requires clock > 0 && LockHolds(c)
    ensures LockHolds(AdvanceTime(c, clock, elapsed).channel)
    decreases |c.transmitFifo|, if c.active.Some? then 1 else 0
  {
    BeginProgresses(c, clock);
    var c1 := Begin(c, clock);
    BeginKeepsLock(c, clock);
    hide Begin, EndCharacter, LockHolds;
    if c1.active.Some? && elapsed >= c1.active.value.remaining {
      EndKeepsQueue(c1);
      EndKeepsLock(c1);
      AdvanceKeepsLock(EndCharacter(c1), clock, elapsed - c1.active.value.remaining);
    }
  }
}
