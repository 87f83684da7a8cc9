/**
 What a serial channel receives and asks for.  Characters are read in the order in which
 they came, only an overrun losing one and telling so; what is sent in loopback is
 received; and interrupts are requested exactly in the modes and states that ask for them.
 */
module SerialReceive {
  import opened Options
  import opened Arithmetic
  import opened CharacterTiming
  import opened SerialChannel

  // Order

  /** A character after those that have come: eight of them wait at most, and the ninth takes the place of the last. */
  function Came(kept: seq<ReceiveCharacter>, waiting: nat, value: bv8): seq<ReceiveCharacter>
    requires waiting <= |kept|
  {
    if waiting == 8 then kept[..|kept| - 1] + [ReceiveCharacter(value, 0x26)] else kept + [ReceiveCharacter(value, 0x06)]
  }

  datatype Event =
    | Arrive(value: bv8)
    | ReadOne
    | ResetErrors
    | Elapse(time: nat)

  /** A channel with the characters that are or were in its FIFO, and those that have left it. */
  datatype Log = Log(channel: Channel, kept: seq<ReceiveCharacter>, taken: seq<ReceiveCharacter>)

  predicate Follows(l: Log) {
    l.taken + l.channel.receiveFifo == l.kept
  }

  predicate ReceiverOn(c: Channel) {
    c.writeRegisters[3] & 0x01 != 0
  }

  predicate LoopsBack(c: Channel) {
    c.writeRegisters[14] & 0x10 != 0
  }

  function Step(l: Log, clock: nat, e: Event): Log
    requires clock > 0 && Follows(l)
  {
    match e
    case Arrive(value) =>
      Log(ReceiveExternal(l.channel, value),
          if ReceiverOn(l.channel) && !LoopsBack(l.channel) then Came(l.kept, |l.channel.receiveFifo|, value) else l.kept,
          l.taken)
    case ReadOne =>
      var after := ReadData(l.channel).0;
      Log(after, l.kept, Left(l, after))
    case ResetErrors =>
      var after := ResetReceiveErrors(l.channel);
      Log(after, l.kept, Left(l, after))
    case Elapse(time) =>
      var after := AdvanceTime(l.channel, clock, time);
      Log(after.channel, AllCame(l.kept, |l.channel.receiveFifo|, Looped(l.channel, clock, time)), l.taken)
  }

  /** What has left the FIFO when it has become shorter by one. */
  function Left(l: Log, after: Channel): seq<ReceiveCharacter>
    requires Follows(l)
  {
    if |after.receiveFifo| < |l.channel.receiveFifo| then l.taken + [l.channel.receiveFifo[0]] else l.taken
  }

  /** The characters sent in loopback that end in the time, if the receiver is on. */
  function Looped(c: Channel, clock: nat, elapsed: nat): seq<bv8>
    requires clock > 0
    decreases |c.transmitFifo|, if c.active.Some? then 1 else 0
  {
    BeginProgresses(c, clock);
    var c1 := Begin(c, clock);
    if c1.active.None? || elapsed < c1.active.value.remaining then []
    else
      EndKeepsQueue(c1);
      var rest := Looped(EndCharacter(c1), clock, elapsed - c1.active.value.remaining);
      if c1.active.value.loopback && ReceiverOn(c) then [c1.active.value.value] + rest else rest
  }

  function AllCame(kept: seq<ReceiveCharacter>, waiting: nat, values: seq<bv8>): seq<ReceiveCharacter>
    requires waiting <= |kept| && waiting <= 8
    decreases |values|
  {
    if values == [] then kept
    else AllCame(Came(kept, waiting, values[0]), if waiting == 8 then 8 else waiting + 1, values[1..])
  }

  lemma ArrivalFollows(taken: seq<ReceiveCharacter>, queue: ReceiveQueue, value: bv8)
    ensures taken + ReceiveInto(queue, value) == Came(taken + queue, |queue|, value)
  {
    assert ASYNC_EIGHT_BIT_RESIDUE | RECEIVE_OVERRUN_ERROR == 0x26;
    if |queue| == 8 {
      assert (taken + queue)[..|taken + queue| - 1] == taken + queue[..7];
      assert ReceiveInto(queue, value) == queue[..7] + [ReceiveCharacter(value, 0x26)];
    }
  }

  lemma {:induction false} TimeFollows(taken: seq<ReceiveCharacter>, c: Channel, clock: nat, elapsed: nat)
    requires clock > 0
    ensures taken + AdvanceTime(c, clock, elapsed).channel.receiveFifo
         == AllCame(taken + c.receiveFifo, |c.receiveFifo|, Looped(c, clock, elapsed))
    decreases |c.transmitFifo|, if c.active.Some? then 1 else 0
  {
    BeginProgresses(c, clock);
    BeginKeepsFifo(c, clock);
    var c1 := Begin(c, clock);
    hide Begin, ReceiveInto, Came;
    if c1.active.Some? && elapsed >= c1.active.value.remaining {
      EndKeepsQueue(c1);
      EndReceives(c1);
      var rest := elapsed - c1.active.value.remaining;
      TimeFollows(taken, EndCharacter(c1), clock, rest);
      if c1.active.value.loopback && ReceiverOn(c) {
        ArrivalFollows(taken, c.receiveFifo, c1.active.value.value);
        var all := Looped(c, clock, elapsed);
        assert all[1..] == Looped(EndCharacter(c1), clock, rest);
        GrowsByOne(c.receiveFifo, c1.active.value.value);
      }
      hide EndCharacter;
    }
  }

  lemma GrowsByOne(queue: ReceiveQueue, value: bv8)
    ensures |ReceiveInto(queue, value)| == if |queue| == 8 then 8 else |queue| + 1
  {
  }

  lemma BeginKeepsFifo(c: Channel, clock: nat)
    requires clock > 0
    ensures Begin(c, clock).receiveFifo == c.receiveFifo && Begin(c, clock).writeRegisters == c.writeRegisters
  {
    hide FrameUnits, Duration, NextRest;
  }

  lemma EndReceives(c: Channel)
    requires c.active.Some?
    ensures EndCharacter(c).receiveFifo ==
            if c.active.value.loopback && ReceiverOn(c) then ReceiveInto(c.receiveFifo, c.active.value.value) else c.receiveFifo
  {
    hide ReceiveInto;
  }

  /** Characters leave the FIFO in the order in which they came into it, none lost but by an overrun, none twice. */
  lemma StepFollows(l: Log, clock: nat, e: Event)
    requires clock > 0 && Follows(l)
    ensures Follows(Step(l, clock, e))
  {
    hide AdvanceTime, HeadIsSpecial, Came, AllCame, ReceiveInto, LatchErrors;
    match e {
      case Arrive(value) => ArrivalFollows(l.taken, l.channel.receiveFifo, value);
      case Elapse(time) => TimeFollows(l.taken, l.channel, clock, time);
      case _ => LeavingFollows(l);
    }
  }

  lemma LeavingFollows(l: Log)
    requires Follows(l)
    ensures l.channel.receiveFifo != [] ==>
              (l.taken + [l.channel.receiveFifo[0]]) + l.channel.receiveFifo[1..] == l.kept
  {
    if l.channel.receiveFifo != [] {
      assert l.channel.receiveFifo == [l.channel.receiveFifo[0]] + l.channel.receiveFifo[1..];
    }
  }

  /** So it is on every run. */
  function RunLog(l: Log, clock: nat, events: seq<Event>): (end: Log)
    requires clock > 0 && Follows(l)
    ensures Follows(end)
    decreases |events|
  {
    if events == [] then l
    else
      StepFollows(l, clock, events[0]);
      RunLog(Step(l, clock, events[0]), clock, events[1..])
  }

  // Reading

  /** The special conditions: overrun, framing, end of frame, and parity if it is selected. */
  predicate IsSpecial(c: Channel, status: bv8) {
    status & 0xe0 != 0 || (c.writeRegisters[1] & 0x04 != 0 && status & 0x10 != 0)
  }

  /** Bits 3 and 4 of the first write register: first character, all characters, special conditions only. */
  function Mode(c: Channel): (mode: nat)
    ensures mode <= 3
  {
    if c.writeRegisters[1] & 0x18 == 0x08 then 1 else if c.writeRegisters[1] & 0x18 == 0x10 then 2
    else if c.writeRegisters[1] & 0x18 == 0x18 then 3 else 0
  }

  lemma ModeIs(c: Channel)
    ensures (ReceiveInterruptMode(c) == 0 <==> Mode(c) == 0) && (ReceiveInterruptMode(c) == 1 <==> Mode(c) == 1)
    ensures (ReceiveInterruptMode(c) == 2 <==> Mode(c) == 2) && (ReceiveInterruptMode(c) == 3 <==> Mode(c) == 3)
  {
    ModeBits(c.writeRegisters[1]);
  }

  lemma ModeBits(wr1: bv8)
    ensures (wr1 >> 3) & 0x03 == if wr1 & 0x18 == 0x08 then 1 else if wr1 & 0x18 == 0x10 then 2 else if wr1 & 0x18 == 0x18 then 3 else 0
  {
  }

  predicate Masked(c: Channel, status: bv8) {
    status & SpecialConditionMask(c) != 0
  }

  lemma SpecialIs(c: Channel, status: bv8)
    ensures Masked(c, status) <==> IsSpecial(c, status)
  {
    SpecialBits(status);
  }

  lemma SpecialBits(status: bv8)
    ensures status & (0x20 | 0x40 | 0x80 | 0x10) != 0 <==> status & 0xe0 != 0 || status & 0x10 != 0
    ensures status & (0x20 | 0x40 | 0x80 | 0) != 0 <==> status & 0xe0 != 0
  {
  }

  /** A character at which the FIFO stops: a special one in modes 1 and 3, and any one while it is locked. */
  predicate Stops(c: Channel)
    requires c.receiveFifo != []
  {
    c.receiveFifoLocked || ((Mode(c) == 1 || Mode(c) == 3) && IsSpecial(c, c.receiveFifo[0].status))
  }

  lemma StopsIs(c: Channel)
    requires c.receiveFifo != []
    ensures Stops(c) <==> c.receiveFifoLocked || HeadIsSpecial(c)
  {
    HeadIs(c);
    ModeIs(c);
    SpecialIs(c, c.receiveFifo[0].status);
    hide HeadIsSpecial, ReceiveInterruptMode, Mode, IsSpecial, Masked;
  }

  lemma HeadIs(c: Channel)
    requires c.receiveFifo != []
    ensures HeadIsSpecial(c) <==>
            (ReceiveInterruptMode(c) == 1 || ReceiveInterruptMode(c) == 3) && Masked(c, c.receiveFifo[0].status)
  {
    hide ReceiveInterruptMode, SpecialConditionMask;
  }

  /** A read gives the oldest character; one at which the FIFO stops stays, locked, until the errors are reset. */
  lemma ReadTakesOldest(c: Channel)
    requires c.receiveFifo != []
    ensures var (after, value) := ReadData(c);
            && value == c.receiveFifo[0].value
            && after.receiveFifo == (if Stops(c) then c.receiveFifo else c.receiveFifo[1..]) && (after.receiveFifoLocked <==> Stops(c))
            && after.transmitFifo == c.transmitFifo && after.active == c.active
  {
    hide LatchErrors, DisarmsOnRead;
    StopsIs(c);
    hide HeadIsSpecial, Stops;
  }

  /** There is nothing to read in an empty FIFO. */
  lemma EmptyReadsZero(c: Channel)
    requires c.receiveFifo == []
    ensures ReadData(c) == (c, 0)
  {
  }

  /** Overrun and parity errors of a character that is read are kept until they are reset. */
  lemma ErrorsAreKept(c: Channel)
    requires c.receiveFifo != [] && !c.receiveFifoLocked
    ensures var latch := ReadData(c).0.receiveErrorLatch;
            && latch & 0x30 == (c.receiveErrorLatch | c.receiveFifo[0].status) & 0x30
            && latch & !0x30 == c.receiveErrorLatch & !0x30
  {
    LatchedErrors(c.receiveErrorLatch, c.receiveFifo[0].status);
    hide LatchErrors, HeadIsSpecial, DisarmsOnRead;
  }

  lemma LatchedErrors(latch: bv8, status: bv8)
    ensures LatchErrors(latch, status) & 0x30 == (latch | status) & 0x30 && LatchErrors(latch, status) & !0x30 == latch & !0x30
  {
  }

  /** Resetting the errors unlocks the FIFO, drops the character at which it stops, and forgets the errors. */
  lemma ResetUnlocks(c: Channel)
    requires c.receiveFifoLocked ==> c.receiveFifo != []
    ensures ResetReceiveErrors(c) ==
            c.(receiveFifo := if c.receiveFifo != [] && Stops(c) then c.receiveFifo[1..] else c.receiveFifo,
               receiveErrorLatch := 0, receiveFifoLocked := false)
  {
    if c.receiveFifo != [] {
      StopsIs(c);
    }
    hide HeadIsSpecial, Stops;
  }

  // Requests

  /** Characters that one request stands for: one, or four. */
  function Wanted(c: Channel): nat {
    if c.primeSeven & 0x08 != 0 then 4 else 1
  }

  predicate SpecialSeen(c: Channel) {
    c.receiveFifoLocked || IsSpecial(c, c.receiveErrorLatch)
  }

  /** A receive interrupt is requested by mode: for the first character while armed, for enough of them, or for special ones. */
  lemma ReceiveRequests(c: Channel)
    ensures ReceiveInterruptPending(c) <==>
            || (Mode(c) == 1 && (SpecialSeen(c) || (c.firstCharacterArmed && c.receiveFifo != [])))
            || (Mode(c) == 2 && (|c.receiveFifo| >= Wanted(c) || IsSpecial(c, c.receiveErrorLatch)
                                 || exists i: nat :: i < |c.receiveFifo| && IsSpecial(c, c.receiveFifo[i].status)))
            || (Mode(c) == 3 && SpecialSeen(c))
  {
    ModeIs(c);
    SpecialIs(c, c.receiveErrorLatch);
    forall i: nat | i < |c.receiveFifo|
      ensures Masked(c, c.receiveFifo[i].status) <==> IsSpecial(c, c.receiveFifo[i].status)
    {
      SpecialIs(c, c.receiveFifo[i].status);
    }
    hide SpecialConditionMask, ReceiveInterruptMode, IsSpecial;
  }

  /** In mode 1 a read that takes a character also disarms the request for the first one. */
  lemma FirstCharacterAsksOnce(c: Channel)
    requires Mode(c) == 1 && c.receiveFifo != [] && !c.receiveFifoLocked
    ensures !ReadData(c).0.firstCharacterArmed
  {
    ModeIs(c);
    hide SpecialConditionMask, ReceiveInterruptMode;
  }

  /** In the other modes it stays armed unless the FIFO locks. */
  lemma OthersStayArmed(c: Channel)
    requires Mode(c) != 1 && !ReadData(c).0.receiveFifoLocked
    ensures ReadData(c).0.firstCharacterArmed == c.firstCharacterArmed
  {
    ModeIs(c);
    hide SpecialConditionMask, ReceiveInterruptMode, Mode;
  }

  /** The transmitter asks for more when its FIFO is empty, or with one write register bit clear when there is room. */
  predicate AsksForMore(c: Channel) {
    c.writeRegisters[1] & 0x02 != 0 && (if c.primeSeven & 0x20 != 0 then c.transmitFifo == [] else |c.transmitFifo| < 4)
  }

  /** It does so at the start and at the end of each character, and a byte written to it takes the request back. */
  lemma TransmitRequests(c: Channel, clock: nat, value: bv8)
    requires clock > 0
    ensures CanStart(c) ==>
              (Begin(c, clock).transmitInterruptPending <==> c.transmitInterruptPending || AsksForMore(StartTransmitter(c, clock)))
    ensures c.active.Some? ==> (EndCharacter(c).transmitInterruptPending <==> c.transmitInterruptPending || AsksForMore(c))
    ensures WriteData(c, value).1 <==> |c.transmitFifo| < 4
    ensures WriteData(c, value).1 ==> !WriteData(c, value).0.transmitInterruptPending
    ensures |c.transmitFifo| == 4 ==> WritePort(c, clock, value) == (c, false)
  {
    hide FrameUnits, Duration, NextRest;
  }

  /** So a line that runs empty always ends up asking for more. */
  lemma {:induction false} EmptyLineAsks(c: Channel, clock: nat, elapsed: nat)
    requires clock > 0 && TransmitInterruptEnabled(c)
    ensures var after := AdvanceTime(c, clock, elapsed);
            after.output != [] && after.channel.active.None? && after.channel.transmitFifo == [] ==>
              after.channel.transmitInterruptPending
    decreases |c.transmitFifo|, if c.active.Some? then 1 else 0
  {
    BeginProgresses(c, clock);
    BeginKeepsFifo(c, clock);
    var c1 := Begin(c, clock);
    if c1.active.Some? && elapsed >= c1.active.value.remaining {
      EndKeepsQueue(c1);
      var rest := elapsed - c1.active.value.remaining;
      EmptyLineAsks(EndCharacter(c1), clock, rest);
      EndAsks(c1);
      var after := AdvanceTime(EndCharacter(c1), clock, rest);
      hide Begin, EndCharacter;
      if after.output == [] {
        NothingSent(EndCharacter(c1), clock, rest);
      }
    }
  }

  lemma EndAsks(c: Channel)
    requires c.active.Some? && TransmitInterruptEnabled(c)
    ensures c.transmitFifo == [] ==> EndCharacter(c).transmitInterruptPending
  {
  }

  lemma NothingSent(c: Channel, clock: nat, elapsed: nat)
    requires clock > 0 && c.active.None? && AdvanceTime(c, clock, elapsed).output == []
    ensures AdvanceTime(c, clock, elapsed).channel.active.None? ==> AdvanceTime(c, clock, elapsed).channel == c
  {
    BeginProgresses(c, clock);
    hide Begin;
  }

  // Loopback

  /** With the loopback on and the receiver too, every character whose sending begins and ends in the time comes back. */
  lemma {:induction false} LoopbackReturns(c: Channel, clock: nat, elapsed: nat)
    requires clock > 0 && LoopsBack(c) && ReceiverOn(c) && (c.active.Some? ==> c.active.value.loopback)
    ensures Looped(c, clock, elapsed) == AdvanceTime(c, clock, elapsed).output
    decreases |c.transmitFifo|, if c.active.Some? then 1 else 0
  {
    BeginProgresses(c, clock);
    BeginKeepsFifo(c, clock);
    BeginLoops(c, clock);
    var c1 := Begin(c, clock);
    if c1.active.Some? && elapsed >= c1.active.value.remaining {
      EndKeepsQueue(c1);
      LoopbackReturns(EndCharacter(c1), clock, elapsed - c1.active.value.remaining);
    }
    hide Begin, EndCharacter;
  }

  lemma BeginLoops(c: Channel, clock: nat)
    requires clock > 0 && (c.active.Some? ==> c.active.value.loopback == LoopsBack(c))
    ensures Begin(c, clock).active.Some? ==> Begin(c, clock).active.value.loopback == LoopsBack(c)
  {
  }
}
