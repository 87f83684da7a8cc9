/**
 The graphics DMA channel as the PIC1 holds it: a record that every method
 changes in place.  Each method leaves the value that the transition of the same
 step in `GraphicsDma` gives.
 */
module GraphicsDmaDevice {
  import opened Options
  import opened GraphicsDma
  import opened Words

  class GraphicsDmaChannel {
    var registers: Descriptor
    var stage: Stage
    var delay: nat
    var credit: nat
    var descriptorAddress: Word
    var lineMemoryAddress: Word
    var lineGioAddress: Word
    var lineTransferBytes: nat
    var memoryLineIncrement: Word
    var gioLineIncrement: Word
    var linesRemaining: nat
    var nextDescriptorAddress: Word
    var lastDescriptor: bool
    var direction: Direction
    var error: bool

    function Value(): Channel
      reads this
    {
      Channel(registers, stage, delay, credit, descriptorAddress, lineMemoryAddress, lineGioAddress,
              lineTransferBytes, memoryLineIncrement, gioLineIncrement, linesRemaining, nextDescriptorAddress,
              lastDescriptor, direction, error)
    }

    constructor ()
      ensures Value().stage == Idle && Settled(Value()) && !Value().error
    {
      registers := Descriptor(0, 0, 0, 0, 0);
      stage, delay, credit, descriptorAddress := Idle, 0, 0, 0;
      lineMemoryAddress, lineGioAddress, lineTransferBytes := 0, 0, 0;
      memoryLineIncrement, gioLineIncrement, linesRemaining := 0, 0, 0;
      nextDescriptorAddress, lastDescriptor, direction, error := 0, false, MemoryToGio, false;
    }

    /** Applies the banked time to a new delay. */
    method ApplyDelay(newDelay: nat)
      modifies this
      ensures Value() == SetDelay(old(Value()), newDelay)
    {
      var consumed := if newDelay < credit then newDelay else credit;
      delay := newDelay - consumed;
      credit := credit - consumed;
    }

    method Stop(failed: bool)
      modifies this
      ensures Value() == Finish(old(Value()), failed)
    {
      stage, delay, error, credit := Idle, 0, failed, 0;
    }

    method Arm()
      modifies this
      ensures Value() == ArmDescriptorFetch(old(Value()))
    {
      hide SetDelay;
      stage := DescriptorFetch;
      ApplyDelay(CYCLE_ATTOSECONDS * DESCRIPTOR_CYCLES);
    }

    method StartChain(address: Word, syncEnabled: bool, syncAsserted: bool)
      modifies this
      ensures Value() == Start(old(Value()), address, syncEnabled, syncAsserted)
    {
      hide ArmDescriptorFetch;
      if stage != Idle {
        return;
      }
      error, credit, descriptorAddress := false, 0, address;
      if syncEnabled && !syncAsserted {
        stage, delay := WaitingForSync, 0;
      } else {
        Arm();
      }
    }

    method ReleaseSync(syncEnabled: bool, syncAsserted: bool)
      modifies this
      ensures Value() == ReleaseSyncWait(old(Value()), syncEnabled, syncAsserted)
    {
      hide ArmDescriptorFetch;
      if stage == WaitingForSync && (!syncEnabled || syncAsserted) {
        Arm();
      }
    }

    method Elapse(elapsed: nat)
      modifies this
      ensures Value() == AdvanceTime(old(Value()), elapsed)
    {
      if stage != DescriptorFetch && stage != Line {
        return;
      }
      if elapsed >= delay {
        credit := SaturatingAdd(credit, elapsed - delay);
        delay := 0;
      } else {
        delay := delay - elapsed;
      }
    }

    method Next() returns (request: Option<Request>)
      modifies this
      ensures (Value(), request) == NextRequest(old(Value()))
    {
      hide DescriptorReadable, Finish;
      if delay != 0 {
        return None;
      }
      match stage
      case DescriptorFetch =>
        if !DescriptorReadable(descriptorAddress) {
          Stop(true);
          return None;
        }
        return Some(ReadDescriptor(descriptorAddress));
      case Line =>
        return Some(TransferLine(direction, lineMemoryAddress, lineGioAddress, lineTransferBytes));
      case _ =>
        return None;
    }

    /** Twenty bytes of memory, or none of them. */
    method DescriptorArrived(bytes: Option<seq<Byte>>)
      requires bytes.Some? ==> |bytes.value| == 20
      modifies this
      ensures Value() == CompleteDescriptor(old(Value()), if bytes.Some? then Some(DescriptorOf(bytes.value)) else None)
    {
      hide LineWidth, SignExtend12, GioTransferBytes, WrappingAdd, BitSet, LineDelay, SetDelay, Finish, DescriptorOf;
      if bytes.None? {
        Stop(true);
        return;
      }
      var d := DescriptorOf(bytes.value);
      var length := d.bufferLength;
      registers := d;
      var mode := length / 0x1000 % 4;
      if mode != 0 && mode != 2 {
        Stop(true);
        return;
      }
      hide LoadDescriptor;
      Load(d);
      ApplyDelay(LineDelay(lineTransferBytes));
    }

    method Load(d: Descriptor)
      modifies this
      ensures Value() == LoadDescriptor(old(Value()), d)
    {
      hide LineWidth, GioTransferBytes, MemoryIncrement, GioIncrement, TransferDirection, BitSet;
      registers := d;
      direction := TransferDirection(d);
      lineMemoryAddress, lineGioAddress := d.bufferAddress, d.destinationAddress;
      lineTransferBytes := GioTransferBytes(LineWidth(d.bufferLength));
      memoryLineIncrement, gioLineIncrement := MemoryIncrement(d), GioIncrement(d);
      LoadCounts(d);
    }

    method LoadCounts(d: Descriptor)
      modifies this
      ensures Value() == old(Value()).(
        linesRemaining := d.stride % 0x1_0000 + 1,
        nextDescriptorAddress := d.nextDescriptor % 0x1000_0000,
        lastDescriptor := BitSet(d.bufferLength, 0x8000),
        stage := Line)
    {
      hide BitSet;
      linesRemaining := d.stride % 0x1_0000 + 1;
      nextDescriptorAddress := d.nextDescriptor % 0x1000_0000;
      lastDescriptor := BitSet(d.bufferLength, 0x8000);
      stage := Line;
    }

    method LineTransferred(success: bool)
      modifies this
      ensures Value() == CompleteLine(old(Value()), success)
    {
      hide WrappingAdd, LineDelay, SetDelay, Finish, ArmDescriptorFetch;
      if !success {
        Stop(true);
      } else if linesRemaining > 1 {
        linesRemaining := linesRemaining - 1;
        lineMemoryAddress := WrappingAdd(lineMemoryAddress, memoryLineIncrement);
        lineGioAddress := WrappingAdd(lineGioAddress, gioLineIncrement);
        ApplyDelay(LineDelay(lineTransferBytes));
      } else if lastDescriptor {
        Stop(false);
      } else {
        descriptorAddress := nextDescriptorAddress;
        Arm();
      }
    }
  }
}
