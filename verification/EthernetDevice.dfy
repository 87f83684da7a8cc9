/**
 The Ethernet channel as the HPC1 holds it, with the fields of the two engines
 grouped; every method changes them in place, field by field, in the order of the
 code, and leaves the value that the step of the same event in `Ethernet` gives.
 */
module EthernetDevice {
  import opened Options
  import opened HpcClock
  import opened Ethernet
  import opened Words

  class EthernetChannel {
    var tx: Tx
    var rx: Rx
    var dmaDelay: nat
    var preferReceive: bool
    var receiveInterruptWaiting: bool
    var timer: Timer
    var control: Control

    function Value(): Channel
      reads this
    {
      Channel(tx, rx, dmaDelay, preferReceive, receiveInterruptWaiting, timer, control)
    }

    constructor ()
      ensures Value() == NewChannel(Control(false, false, false, false))
    {
      tx, rx, dmaDelay := NEW_TX, NEW_RX, 0;
      preferReceive, receiveInterruptWaiting := false, false;
      timer, control := Timer(0, false), Control(false, false, false, false);
    }

    // Guest writes

    method SetTransmitStatus(value: Byte)
      modifies this`tx
      ensures tx == WriteTxStatus(old(tx), value)
    {
      hide IsActive;
      tx := tx.(status := value);
      if !IsActive(value) {
        if tx.inflight.Some? {
          tx := tx.(inflight := Some(tx.inflight.value.(attached := false)));
        }
        tx := tx.(stage := TxIdle, frame := []);
      } else if tx.stage == TxIdle {
        tx := tx.(first := true, stage := TxDescriptor);
      }
    }

    method SetReceiveStatus(value: Byte)
      modifies this`rx
      ensures rx == WriteRxStatus(old(rx), value)
    {
      hide IsActive;
      rx := rx.(status := value);
      if !IsActive(value) {
        rx := rx.(stage := RxIdle, frame := []);
      }
    }

    /** Interrupt and overflow are cleared by ones; a rising reset clears everything but the control register. */
    method SetControl(value: Control)
      modifies this
      ensures Value() == WriteControl(old(Value()), value)
    {
      var before := control;
      control := Control(value.reset, before.interrupt && !value.interrupt, value.loopbackDisable,
                         before.overflow && !value.overflow);
      if !before.reset && control.reset {
        tx, rx, dmaDelay := NEW_TX, NEW_RX, 0;
        preferReceive, receiveInterruptWaiting, timer := false, false, Timer(0, false);
      }
    }

    method SetTimer(count: nat, expired: bool)
      modifies this`timer
      ensures Value() == WriteTimer(old(Value()), count, expired)
    {
      timer := Timer(count, expired);
      if timer.count == 0 {
        timer := timer.(expired := true);
      }
    }

    // Frames from the controller

    method ReceiveFrame(bytes: seq<Byte>, status: Byte, interruptRequested: bool)
      modifies this`rx
      ensures rx == AcceptFrame(old(rx), control.reset, bytes, status, interruptRequested)
    {
      hide IsActive;
      rx := rx.(status := KeepingActive(rx.status, status));
      if !IsActive(rx.status) || rx.stage != RxIdle || |bytes| > MAX_FRAME_BYTES || control.reset {
        return;
      }
      rx := rx.(frame := bytes);
      rx := rx.(frame := rx.frame + [status], offset := 0);
      rx := rx.(interruptRequested := interruptRequested, overflow := false, stage := RxDescriptor);
    }

    // Requests

    method NextReceiveRequest() returns (request: Option<Request>)
      requires RxSound(rx)
      modifies this`rx
      ensures (rx, request) == ReceiveRequest(old(rx))
      decreases if rx.stage == RxData then 1 else 0
    {
      hide IsActive, WordBytes;
      if !IsActive(rx.status) {
        rx := rx.(stage := RxIdle);
        return None;
      }
      match rx.stage
      case RxIdle =>
        return None;
      case RxDescriptor =>
        return Some(Read(rx.nextDescriptor, 12, ReceiveDescriptor));
      case RxData =>
        var length := Min(Min(rx.byteCount, BURST_BYTES), |rx.frame| - rx.offset);
        if length == 0 {
          rx := rx.(overflow := rx.offset < |rx.frame|);
          rx := rx.(stage := RxCompletion);
          request := NextReceiveRequest();
          return;
        }
        return Some(Write(rx.buffer.address, rx.frame[rx.offset..rx.offset + length], ReceiveData));
      case RxCompletion =>
        return Some(Write(rx.currentDescriptor, WordBytes(rx.byteCount), ReceiveCompletion));
    }

    method NextTransmitRequest(ready: bool) returns (request: Option<Request>)
      modifies this`tx
      ensures (tx, request) == TransmitRequest(old(tx), ready)
      decreases if tx.stage == TxData then 1 else 0
    {
      hide IsActive;
      if tx.inflight.Some? {
        return None;
      }
      if tx.stage == TxFault {
        tx := tx.(stage := TxIdle);
        return Some(Underflow);
      }
      if !IsActive(tx.status) {
        return None;
      }
      match tx.stage
      case TxDescriptor =>
        return Some(Read(tx.nextDescriptor, 12, TransmitDescriptor));
      case TxData =>
        var length := Min(tx.byteCount, BURST_BYTES);
        if length == 0 {
          EndFragment();
          request := NextTransmitRequest(ready);
          return;
        }
        return Some(Read(tx.buffer.address, length, TransmitData));
      case TxSend =>
        if !ready {
          return None;
        }
        request := Some(Transmit(tx.frame));
        tx := tx.(inflight := Some(Context(tx.packetFirst, tx.nextDescriptor, tx.endOfChain,
                                           tx.interruptRequested, true)));
        tx := tx.(stage := TxWire, frame := []);
        return;
      case _ =>
        return None;
    }

    method EndFragment()
      modifies this`tx
      ensures tx == AfterFragment(old(tx))
    {
      tx := tx.(stage := if tx.endOfPacket then TxSend else if tx.endOfChain then TxFault else TxDescriptor);
      if tx.interruptRequested && !tx.endOfPacket {
        tx := tx.(interruptDelay := Some(CYCLE_ATTOSECONDS));
      }
    }

    method Next(ready: bool) returns (request: Option<Request>)
      requires RxSound(rx)
      modifies this
      ensures (Value(), request) == NextRequest(old(Value()), ready)
    {
      hide RxSound, TransmitRequest, ReceiveRequest;
      if control.reset || dmaDelay != 0 {
        return None;
      }
      var receiveFirst := preferReceive;
      preferReceive := !receiveFirst;
      if receiveFirst {
        request := NextReceiveRequest();
        if request.None? {
          request := NextTransmitRequest(ready);
        }
      } else {
        request := NextTransmitRequest(ready);
        if request.None? {
          request := NextReceiveRequest();
        }
      }
    }

    // Completions

    method ReadFailed(kind: ReadKind)
      modifies this`tx, this`rx
      ensures Value() == FailRead(old(Value()), kind)
    {
      hide IsActive;
      if kind == ReceiveDescriptor {
        rx := rx.(status := Inactive(rx.status));
        rx := rx.(stage := RxIdle, frame := []);
      } else {
        tx := tx.(status := Inactive(tx.status));
        tx := tx.(stage := TxFault, frame := []);
      }
    }

    method ReadArrived(kind: ReadKind, data: Option<seq<Byte>>)
      modifies this
      ensures Value() == CompleteRead(old(Value()), kind, data)
    {
      hide IsActive, AddressAfter, DelayFor, ParseDescriptor, LoadRxDescriptor, LoadTxDescriptor, FailRx;
      if data.None? {
        ReadFailed(kind);
        return;
      }
      var bytes := data.value;
      dmaDelay := DelayFor(|bytes|);
      if kind == TransmitData {
        if |tx.frame| + |bytes| > MAX_FRAME_BYTES {
          ReadFailed(kind);
          return;
        }
        tx := tx.(frame := tx.frame + bytes);
        tx := tx.(buffer := tx.buffer.(address := AddressAfter(tx.buffer.address, |bytes|)));
        tx := tx.(byteCount := if |bytes| < tx.byteCount then tx.byteCount - |bytes| else 0);
        return;
      }
      if |bytes| != 12 {
        ReadFailed(kind);
        return;
      }
      var d := ParseDescriptor(bytes);
      if kind == ReceiveDescriptor {
        LoadReceiveDescriptor(d);
      } else {
        LoadTransmitDescriptor(d);
      }
    }

    method LoadReceiveDescriptor(d: Descriptor)
      modifies this`rx, this`tx
      ensures rx == LoadRxDescriptor(old(rx), d) && tx == old(tx)
    {
      hide IsActive, AddressAfter, BitSet, CapacityOf, NextOf, BufferOf;
      if !TopBit(d) {
        ReadFailed(ReceiveDescriptor);
        return;
      }
      rx := rx.(currentDescriptor := rx.nextDescriptor);
      rx := rx.(nextDescriptor := NextOf(d), byteCount := CapacityOf(d));
      rx := rx.(buffer := BufferPointer(EndOfChain(d), AddressAfter(BufferOf(d), 2)));
      rx := rx.(endOfRing := EndOfChain(d), stage := RxData);
    }

    method LoadTransmitDescriptor(d: Descriptor)
      modifies this`tx
      ensures tx == LoadTxDescriptor(old(tx), d)
    {
      hide BitSet, CountOf, NextOf, BufferOf;
      tx := tx.(currentDescriptor := tx.nextDescriptor);
      tx := tx.(nextDescriptor := NextOf(d));
      if tx.first {
        tx := tx.(packetFirst := tx.currentDescriptor, first := false);
      }
      tx := tx.(byteCount := CountOf(d), buffer := BufferPointer(EndOfChain(d), BufferOf(d)));
      tx := tx.(endOfPacket := TopBit(d), endOfChain := EndOfChain(d), interruptRequested := InterruptEnabled(d));
      tx := tx.(stage := TxData);
    }

    method WriteDone(kind: WriteKind, length: nat, success: bool)
      modifies this
      ensures Value() == CompleteWrite(old(Value()), kind, length, success)
    {
      hide IsActive, AddressAfter, PublishFrame, DelayFor;
      dmaDelay := DelayFor(length);
      if !success {
        ReadFailed(ReceiveDescriptor);
        return;
      }
      if kind == ReceiveData {
        rx := rx.(offset := rx.offset + length);
        rx := rx.(byteCount := if length < rx.byteCount then rx.byteCount - length else 0);
        rx := rx.(buffer := rx.buffer.(address := AddressAfter(rx.buffer.address, length)));
      } else {
        Publish();
      }
    }

    method Publish()
      modifies this
      ensures Value() == PublishFrame(old(Value()))
    {
      hide IsActive;
      if rx.endOfRing || rx.overflow {
        rx := rx.(status := Inactive(rx.status));
      }
      if rx.overflow {
        control := control.(overflow := true, interrupt := true);
      }
      if rx.interruptRequested {
        receiveInterruptWaiting := true;
        if timer.expired {
          control := control.(interrupt := true);
          receiveInterruptWaiting := false;
        }
      }
      rx := rx.(frame := [], stage := RxIdle);
    }

    method TransmitDone(status: Byte, interrupt: bool)
      modifies this`tx
      ensures tx == CompleteTx(old(tx), status, interrupt)
    {
      hide BitSet, KeepingActive, IsActive;
      var continueDma := IsActive(tx.status);
      var context := tx.inflight;
      tx := tx.(inflight := None);
      var requested := if context.Some? then context.value.interruptRequested else tx.interruptRequested;
      var successful := BitSet(status, SUCCESS);
      if requested || (!successful && interrupt) {
        tx := tx.(interruptDelay := Some(CYCLE_ATTOSECONDS));
      }
      if context.Some? && !context.value.attached {
        tx := tx.(status := KeepingActive(tx.status, status));
        return;
      }
      EndPacket(status, successful, context, continueDma);
    }

    method EndPacket(status: Byte, successful: bool, context: Option<Context>, continueDma: bool)
      modifies this`tx
      ensures var continues := successful && context.Some? && !context.value.endOfChain && continueDma;
              tx == old(tx).(status := if continues then KeepingActive(ACTIVE, status) else status,
                             previousFirst := if successful && context.Some? then context.value.firstDescriptor
                                              else old(tx).previousFirst,
                             stage := if continues then TxDescriptor else TxIdle, first := true)
    {
      hide IsActive;
      tx := tx.(status := status);
      if successful && context.Some? {
        tx := tx.(previousFirst := context.value.firstDescriptor);
      }
      var endOfChain := context.None? || context.value.endOfChain;
      if successful && !endOfChain && continueDma {
        tx := tx.(status := KeepingActive(ACTIVE, tx.status), stage := TxDescriptor);
      } else {
        tx := tx.(stage := TxIdle);
      }
      tx := tx.(first := true);
    }

    // Time

    method AdvanceTimerBy(ticks: nat)
      modifies this`timer
      ensures timer == AdvanceTimer(old(timer), ticks)
    {
      if timer.expired || timer.count == 0 {
        return;
      }
      if ticks >= timer.count {
        timer := Timer(0, true);
      } else {
        timer := timer.(count := timer.count - ticks);
      }
    }

    method ElapseTransmitInterrupt(elapsed: nat)
      modifies this`tx, this`control
      ensures var sent := old(tx).interruptDelay.Some? && old(tx).interruptDelay.value <= elapsed;
              && tx == old(tx).(interruptDelay := if sent || old(tx).interruptDelay.None? then None
                                                  else Some(old(tx).interruptDelay.value - elapsed))
              && control == old(control).(interrupt := old(control).interrupt || sent)
    {
      if tx.interruptDelay.Some? {
        var left := if tx.interruptDelay.value < elapsed then 0 else tx.interruptDelay.value - elapsed;
        tx := tx.(interruptDelay := Some(left));
        if left == 0 {
          control := control.(interrupt := true);
          tx := tx.(interruptDelay := None);
        }
      }
    }

    method Elapse(elapsed: nat, ticks: nat)
      modifies this
      ensures Value() == AdvanceTime(old(Value()), elapsed, ticks)
    {
      hide AdvanceTimer;
      AdvanceTimerBy(ticks);
      dmaDelay := if dmaDelay < elapsed then 0 else dmaDelay - elapsed;
      ElapseTransmitInterrupt(elapsed);
      if timer.expired && receiveInterruptWaiting {
        control := control.(interrupt := true);
        receiveInterruptWaiting := false;
      }
    }
  }
}
