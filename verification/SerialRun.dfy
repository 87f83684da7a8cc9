/**
 Runs of one serial channel under a fixed configuration: bytes accepted for sending,
 characters from the line, data reads, error resets and the passing of time, in any
 order.
 */
module SerialRun {
  import opened Options
  import opened CharacterTiming
  import opened SerialChannel

  datatype Operation =
    | Send(value: bv8)
    | Arrive(value: bv8)
    | ReadOne
    | ResetErrors
    | Elapse(time: nat)

  /** A channel with the bytes it has accepted, those that have come out, and the time passed. */
  datatype Record = Record(channel: Channel, accepted: seq<bv8>, output: seq<bv8>, time: nat)

  function Step(r: Record, clock: nat, operation: Operation): Record
    requires clock > 0
  {
    match operation
    case Send(value) =>
      var (after, taken) := WritePort(r.channel, clock, value);
      r.(channel := after, accepted := if taken then r.accepted + [value] else r.accepted)
    case Arrive(value) => r.(channel := ReceiveExternal(r.channel, value))
    case ReadOne => r.(channel := ReadData(r.channel).0)
    case ResetErrors => r.(channel := ResetReceiveErrors(r.channel))
    case Elapse(time) =>
      var after := AdvanceTime(r.channel, clock, time);
      r.(channel := after.channel, output := r.output + after.output, time := r.time + time)
  }

  function Run(r: Record, clock: nat, operations: seq<Operation>): Record
    requires clock > 0
    decreases |operations|
  {
    if operations == [] then r else Run(Step(r, clock, operations[0]), clock, operations[1..])
  }

  /**
   What comes out and what is still to come are what was accepted, no character
   waits for an idle line, and a locked FIFO holds a character.
   */
  predicate Kept(r: Record) {
    r.output + InFlight(r.channel) == r.accepted && !CanStart(r.channel) && LockHolds(r.channel)
  }

  lemma SendKeeps(c: Channel, clock: nat, value: bv8)
    requires clock > 0 && !CanStart(c) && LockHolds(c)
    ensures var (after, taken) := WritePort(c, clock, value);
            && InFlight(after) == InFlight(c) + (if taken then [value] else [])
            && !CanStart(after) && LockHolds(after)
  {
    hide FrameUnits, Duration, NextRest;
  }

  lemma StepKeeps(r: Record, clock: nat, operation: Operation)
    requires clock > 0 && Kept(r)
    ensures Kept(Step(r, clock, operation))
  {
    hide HeadIsSpecial, LatchErrors, DisarmsOnRead, AdvanceTime;
    match operation {
      case Send(value) =>
        SendKeeps(r.channel, clock, value);
        var (after, taken) := WritePort(r.channel, clock, value);
        hide WritePort, InFlight, LockHolds, CanStart;
        assert r.output + (InFlight(r.channel) + [value]) == r.output + InFlight(r.channel) + [value];
        assert InFlight(r.channel) + [] == InFlight(r.channel);
      case Elapse(time) =>
        AdvanceKeepsLock(r.channel, clock, time);
        AdvanceStartsAll(r.channel, clock, time);
        FirstInFirstOut(r.channel, clock, time);
        var after := AdvanceTime(r.channel, clock, time);
        hide LockHolds, InFlight, CanStart;
        assert r.output + after.output + InFlight(after.channel) == r.output + (after.output + InFlight(after.channel));
      case _ =>
    }
  }

  /** On every run bytes come out in the order they were accepted, none lost, none twice, and none waits for an idle line. */
  lemma {:induction false} RunKeeps(r: Record, clock: nat, operations: seq<Operation>)
    requires clock > 0 && Kept(r)
    ensures Kept(Run(r, clock, operations))
    decreases |operations|
  {
    hide Kept, Step;
    if operations != [] {
      StepKeeps(r, clock, operations[0]);
      RunKeeps(Step(r, clock, operations[0]), clock, operations[1..]);
    }
  }

  /** The line is busy before the run and after each of its operations. */
  predicate NeverIdle(r: Record, clock: nat, operations: seq<Operation>)
    requires clock > 0
    decreases |operations|
  {
    && r.channel.active.Some?
    && (operations != [] ==> NeverIdle(Step(r, clock, operations[0]), clock, operations[1..]))
  }

  /** The line sends the character after those that have come out, and has been busy since it began with the first. */
  predicate OnTime(r: Record, clock: nat, length: nat, start: nat)
    requires clock > 0
  {
    Busy(r.channel, clock, length, start, |r.output| + 1, r.time)
  }

  lemma StepOnTime(r: Record, clock: nat, length: nat, start: nat, operation: Operation)
    requires clock > 0 && OnTime(r, clock, length, start) && Step(r, clock, operation).channel.active.Some?
    ensures OnTime(Step(r, clock, operation), clock, length, start)
  {
    hide FrameUnits, HeadIsSpecial, LatchErrors, DisarmsOnRead, AdvanceTime, RestAfter, TotalDuration;
    match operation {
      case Elapse(time) =>
        BusyStaysExact(r.channel, clock, length, start, |r.output| + 1, r.time, time);
        hide Busy;
      case Send(value) =>
        WritingStaysBusy(r.channel, clock, length, start, |r.output| + 1, r.time, value);
        hide Busy, WritePort;
      case _ =>
    }
  }

  /** Whatever is sent, received, read and reset meanwhile, a line that stays busy does not drift. */
  lemma {:induction false} RunOnTime(r: Record, clock: nat, length: nat, start: nat, operations: seq<Operation>)
    requires clock > 0 && OnTime(r, clock, length, start) && NeverIdle(r, clock, operations)
    ensures OnTime(Run(r, clock, operations), clock, length, start)
    decreases |operations|
  {
    hide OnTime, Step;
    if operations != [] {
      StepOnTime(r, clock, length, start, operations[0]);
      RunOnTime(Step(r, clock, operations[0]), clock, length, start, operations[1..]);
    }
  }

  /** So do the characters from the first byte sent to an idle line. */
  lemma RunFromIdle(c: Channel, clock: nat, value: bv8, operations: seq<Operation>)
    requires clock > 0 && c.active.None? && c.transmitFifo == [] && FrameUnits(c.writeRegisters).Some?
    requires NeverIdle(Step(Record(c, [], [], 0), clock, Send(value)), clock, operations)
    ensures OnTime(Run(Record(c, [], [], 0), clock, [Send(value)] + operations), clock, CharacterLength(c), c.timingRemainder)
  {
    var idle, all := Record(c, [], [], 0), [Send(value)] + operations;
    WritingStartsBusy(c, clock, value);
    assert all[0] == Send(value) && all[1..] == operations;
    assert OnTime(Step(idle, clock, Send(value)), clock, CharacterLength(c), c.timingRemainder) by {
      hide Busy, FrameUnits, WritePort;
    }
    hide OnTime, Step, NeverIdle, FrameUnits;
    RunOnTime(Step(idle, clock, Send(value)), clock, CharacterLength(c), c.timingRemainder, operations);
  }

  /** And it goes idle exactly at the rounded-down time of all that was accepted. */
  lemma GoesIdleOnTime(r: Record, clock: nat, length: nat, start: nat, elapsed: nat, exact: nat)
    requires clock > 0 && start < clock && OnTime(r, clock, length, start) && Kept(r)
    requires exact == start + |r.accepted| * length
    ensures Step(r, clock, Elapse(elapsed)).channel.active.None? <==> r.time + elapsed >= exact / clock
    ensures Step(r, clock, Elapse(elapsed)).channel.active.None? ==>
              Step(r, clock, Elapse(elapsed)).output == r.accepted
  {
    hide FrameUnits, TotalDuration, RestAfter, AdvanceTime;
    BusyIsActive(r.channel, clock, length, start, |r.output| + 1, r.time);
    IdleWhenSent(r.channel, clock, length, start, |r.output| + 1, r.time, elapsed);
    assert |r.accepted| == |r.output| + 1 + |r.channel.transmitFifo|;
    hide Busy;
    NoDrift(length, start, clock, |r.accepted|, exact);
  }
}
