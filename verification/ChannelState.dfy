/**
 A Z85230 channel as the controller holds it: two ring buffers and a few latches,
 changed in place.  `Value` is the channel with its rings read as queues.
 */
module SerialDevice {
  import opened Options
  import opened Arithmetic
  import opened CharacterTiming
  import opened SerialChannel
  import Ring

  class ChannelState {
    const writeRegisters: array<bv8>
    const receiveFifo: array<ReceiveCharacter>
    const transmitFifo: array<bv8>
    var primeSeven: bv8
    var receiveHead: nat
    var receiveLength: nat
    var firstCharacterArmed: bool
    var receiveErrorLatch: bv8
    var receiveFifoLocked: bool
    var transmitHead: nat
    var transmitLength: nat
    var transmitInterruptPending: bool
    var active: Option<ActiveCharacter>
    var timingRemainder: nat

    predicate Valid()
      reads this
    {
      && writeRegisters.Length == 16
      && receiveFifo.Length == RECEIVE_FIFO_BYTES
      && transmitFifo.Length == TRANSMIT_FIFO_BYTES
      && writeRegisters != transmitFifo
      && receiveHead < RECEIVE_FIFO_BYTES && receiveLength <= RECEIVE_FIFO_BYTES
      && transmitHead < TRANSMIT_FIFO_BYTES && transmitLength <= TRANSMIT_FIFO_BYTES
    }

    function Value(): Channel
      requires Valid()
      reads this, writeRegisters, receiveFifo, transmitFifo
    {
      Channel(writeRegisters[..], primeSeven, Ring.Contents(receiveFifo[..], receiveHead, receiveLength),
              firstCharacterArmed, receiveErrorLatch, receiveFifoLocked,
              Ring.Contents(transmitFifo[..], transmitHead, transmitLength), transmitInterruptPending, active,
              timingRemainder)
    }

    constructor ()
      ensures Valid() && fresh(writeRegisters) && fresh(receiveFifo) && fresh(transmitFifo)
      ensures Value() == ResetChannel
    {
      writeRegisters := new bv8[16](i requires 0 <= i < 16 => ResetRegisters[i]);
      receiveFifo := new ReceiveCharacter[8](_ => ReceiveCharacter(0, ASYNC_EIGHT_BIT_RESIDUE));
      transmitFifo := new bv8[4](_ => 0);
      primeSeven, receiveHead, receiveLength := 0x20, 0, 0;
      firstCharacterArmed, receiveErrorLatch, receiveFifoLocked := false, 0, false;
      transmitHead, transmitLength, transmitInterruptPending := 0, 0, false;
      active, timingRemainder := None, 0;
      new;
      assert writeRegisters[..] == ResetRegisters;
    }

    method ReceiveCharacterValue(value: bv8)
      requires Valid()
      modifies this`receiveLength, receiveFifo
      ensures Valid() && Value() == Receive(old(Value()), value)
    {
      if receiveLength == RECEIVE_FIFO_BYTES {
        var entry := (receiveHead + receiveLength - 1) % RECEIVE_FIFO_BYTES;
        Ring.ReplaceLast(receiveFifo[..], receiveHead, receiveLength,
                         ReceiveCharacter(value, ASYNC_EIGHT_BIT_RESIDUE | RECEIVE_OVERRUN_ERROR));
        receiveFifo[entry] := ReceiveCharacter(value, ASYNC_EIGHT_BIT_RESIDUE | RECEIVE_OVERRUN_ERROR);
      } else {
        var entry := (receiveHead + receiveLength) % RECEIVE_FIFO_BYTES;
        Ring.Push(receiveFifo[..], receiveHead, receiveLength, ReceiveCharacter(value, ASYNC_EIGHT_BIT_RESIDUE));
        receiveFifo[entry] := ReceiveCharacter(value, ASYNC_EIGHT_BIT_RESIDUE);
        receiveLength := receiveLength + 1;
      }
    }

    /** A character from outside, unless the channel talks to itself or does not listen. */
    method ReceiveExternalCharacter(value: bv8)
      requires Valid()
      modifies this, receiveFifo
      ensures Valid() && Value() == ReceiveExternal(old(Value()), value)
    {
      if writeRegisters[14] & 0x10 != 0 || writeRegisters[3] & 0x01 == 0 {
        return;
      }
      hide Receive;
      ReceiveCharacterValue(value);
    }

    method DropReceived()
      requires Valid() && receiveLength > 0
      modifies this`receiveHead, this`receiveLength
      ensures Valid() && Value() == old(Value()).(receiveFifo := old(Value()).receiveFifo[1..])
    {
      Ring.Pop(receiveFifo[..], receiveHead, receiveLength);
      receiveHead := (receiveHead + 1) % RECEIVE_FIFO_BYTES;
      receiveLength := receiveLength - 1;
    }

    method Oldest() returns (character: ReceiveCharacter)
      requires Valid() && receiveLength > 0
      ensures character == Value().receiveFifo[0]
    {
      Ring.Pop(receiveFifo[..], receiveHead, receiveLength);
      character := receiveFifo[receiveHead];
    }

    method Read() returns (value: bv8)
      requires Valid()
      modifies this
      ensures Valid() && (Value(), value) == ReadData(old(Value()))
    {
      hide HeadIsSpecial, LatchErrors, DisarmsOnRead, Ring.Contents;
      assert |Value().receiveFifo| == receiveLength;
      if receiveLength == 0 {
        return 0;
      }
      var character := Oldest();
      value := character.value;
      if receiveFifoLocked {
        return;
      }
      var special, disarms := HeadIsSpecial(Value()), DisarmsOnRead(Value());
      if special {
        receiveFifoLocked, firstCharacterArmed := true, false;
      } else {
        DropReceived();
        firstCharacterArmed := firstCharacterArmed && !disarms;
      }
      receiveErrorLatch := LatchErrors(receiveErrorLatch, character.status);
    }

    method ResetErrors()
      requires Valid() && LockHolds(Value())
      modifies this
      ensures Valid() && Value() == ResetReceiveErrors(old(Value()))
    {
      hide HeadIsSpecial, Ring.Contents;
      assert |Value().receiveFifo| == receiveLength;
      var unreadSpecial := receiveLength != 0 && HeadIsSpecial(Value());
      if receiveFifoLocked || unreadSpecial {
        DropReceived();
      }
      receiveErrorLatch, receiveFifoLocked := 0, false;
    }

    method WriteByte(value: bv8) returns (accepted: bool)
      requires Valid()
      modifies this, transmitFifo
      ensures Valid() && (Value(), accepted) == WriteData(old(Value()), value)
    {
      if transmitLength == TRANSMIT_FIFO_BYTES {
        return false;
      }
      transmitInterruptPending := false;
      var tail := (transmitHead + transmitLength) % TRANSMIT_FIFO_BYTES;
      Ring.Push(transmitFifo[..], transmitHead, transmitLength, value);
      assert writeRegisters[..] == old(writeRegisters[..]);
      transmitFifo[tail] := value;
      assert writeRegisters[..] == old(writeRegisters[..]);
      transmitLength := transmitLength + 1;
      return true;
    }

    method StartCharacter(clock: nat) returns (started: bool)
      requires Valid() && clock > 0
      modifies this
      ensures Valid() && Value() == StartTransmitter(old(Value()), clock) && started == CanStart(old(Value()))
    {
      hide FrameUnits, Duration, NextRest, LoopbackEnabled;
      if active.Some? || transmitLength == 0 {
        return false;
      }
      var units := FrameUnits(writeRegisters[..]);
      if units.None? {
        return false;
      }
      var loopback := LoopbackEnabled(Value());
      Ring.Pop(transmitFifo[..], transmitHead, transmitLength);
      var value := transmitFifo[transmitHead];
      transmitHead := (transmitHead + 1) % TRANSMIT_FIFO_BYTES;
      transmitLength := transmitLength - 1;
      var length := units.value * ATTOSECONDS_PER_SECOND;
      active := Some(ActiveCharacter(value, Duration(length, timingRemainder, clock), loopback));
      timingRemainder := NextRest(length, timingRemainder, clock);
      return true;
    }

    /** A write to the data port. */
    method WritePort(clock: nat, value: bv8) returns (accepted: bool)
      requires Valid() && clock > 0
      modifies this, transmitFifo
      ensures Valid() && (Value(), accepted) == SerialChannel.WritePort(old(Value()), clock, value)
    {
      hide WriteData, StartTransmitter;
      accepted := WriteByte(value);
      if accepted {
        var _ := StartCharacter(clock);
      }
    }

    method LatchInterrupt()
      requires Valid()
      modifies this`transmitInterruptPending
      ensures Valid() && Value() == LatchTransmitInterrupt(old(Value()))
    {
      if !TransmitInterruptEnabled(Value()) {
        return;
      }
      var ready := if primeSeven & 0x20 != 0 then transmitLength == 0 else transmitLength < TRANSMIT_FIFO_BYTES;
      transmitInterruptPending := transmitInterruptPending || ready;
    }

    method FinishCharacter()
      requires Valid() && active.Some?
      modifies this, receiveFifo
      ensures Valid() && Value() == EndCharacter(old(Value()))
    {
      hide LatchTransmitInterrupt, Receive;
      var character := active.value;
      active := None;
      LatchInterrupt();
      if character.loopback && writeRegisters[3] & 0x01 != 0 {
        ReceiveCharacterValue(character.value);
      }
    }

    /** Starts the next character if one can start. */
    method StartNext(clock: nat)
      requires Valid() && clock > 0
      modifies this
      ensures Valid() && Value() == Begin(old(Value()), clock)
    {
      StartOrNot(Value(), clock);
      hide StartTransmitter, LatchTransmitInterrupt, CanStart;
      var started := StartCharacter(clock);
      if started {
        LatchInterrupt();
      }
    }

    /** Lets time pass and reports the characters that end, in order. */
    method Elapse(clock: nat, elapsed: nat) returns (output: seq<bv8>)
      requires Valid() && clock > 0
      modifies this, receiveFifo
      ensures Valid()
      ensures Value() == AdvanceTime(old(Value()), clock, elapsed).channel
      ensures output == AdvanceTime(old(Value()), clock, elapsed).output
    {
      hide Begin, EndCharacter;
      var remaining: nat := elapsed;
      output := [];
      while true
        invariant Valid()
        invariant AdvanceTime(old(Value()), clock, elapsed).channel == AdvanceTime(Value(), clock, remaining).channel
        invariant AdvanceTime(old(Value()), clock, elapsed).output
               == output + AdvanceTime(Value(), clock, remaining).output
        decreases transmitLength, if active.Some? then 1 else 0
      {
        ghost var before := Value();
        BeginProgresses(before, clock);
        StartNext(clock);
        if active.None? {
          return;
        }
        var current := active.value;
        if remaining < current.remaining {
          active := Some(current.(remaining := current.remaining - remaining));
          return;
        }
        remaining := remaining - current.remaining;
        EndKeepsQueue(Value());
        FinishCharacter();
        output := output + [current.value];
      }
    }
  }

  lemma StartOrNot(c: Channel, clock: nat)
    requires clock > 0
    ensures !CanStart(c) ==> StartTransmitter(c, clock) == c && Begin(c, clock) == c
    ensures CanStart(c) ==> Begin(c, clock) == LatchTransmitInterrupt(StartTransmitter(c, clock))
  {
  }
}
