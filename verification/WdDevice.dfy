/**
 The controller as the emulator holds it: programming registers and transfer progress
 changed in place, working on a bus it is given.  `Serve` leaves controller and bus as
 `ServeRequest` says, so what `WdWindows` proves holds of it.
 */
module WdDevice {
  import opened Arithmetic
  import opened Options
  import opened Words
  import opened ScsiTargets
  import opened ScsiBus
  import opened ScsiConnection
  import opened ScsiRun
  import opened ScsiDevice
  import opened Wd33c93b

  class Controller {
    const clockHz: nat
    var r: Registers
    var p: Progress
    var commandInProgress: bool
    var interruptPending: bool
    var pending: Option<Request>
    var resetCompleted: bool

    function Value(): Wd
      reads this
    {
      Wd(r, p, commandInProgress, interruptPending, pending, resetCompleted)
    }

    constructor (clockHz: nat)
      requires clockHz > 0
      ensures this.clockHz == clockHz && interruptPending && p == NO_PROGRESS && pending.None?
    {
      this.clockHz := clockHz;
      r := Registers(0, 0, 0, seq(12, _ => 0), 0, 0, 0, 0, 0, 0);
      p := NO_PROGRESS;
      commandInProgress, interruptPending, pending, resetCompleted := false, true, None, false;
    }

    // The host

    method WriteCommand(command: Byte)
      requires Supported(command)
      modifies this
      ensures Value() == ExecuteCommand(old(Value()), command)
    {
      hide RequestedLength;
      r := r.(command := command);
      pending := None;
      p := p.(phaseAfterStatus := false);
      if command == 0 {
        ResetBySoftware();
      } else if command == 8 || command == 9 {
        commandInProgress, interruptPending, resetCompleted := true, false, false;
        p := p.(busy := true, combined := true, attention := command == 8);
        pending := Some(Combined(r.destinationId % 8, r.targetLun % 8, r.cdb[..RequestedLength(r.cdb[0])]));
      } else if command == 6 || command == 7 {
        p := NO_PROGRESS;
        commandInProgress, interruptPending := true, false;
        p := p.(busy := true, attention := command == 6);
        pending := Some(SelectOnly(r.destinationId % 8, p.attention));
      } else if command == 0x20 || command == 0xa0 {
        p := p.(combined := false, busy := true, inputByte := None, outputReady := false);
        commandInProgress, interruptPending := true, false;
        p := p.(singleByte := command == 0xa0 || r.transferCount == 0);
        pending := Some(TransferInfo);
      } else {
        WriteSignal(command);
      }
    }

    method WriteSignal(command: Byte)
      requires 1 <= command <= 4
      modifies this`p, this`pending
      ensures p == if command == 2 then old(p).(attention := true) else old(p)
      ensures pending == Some(if command == 1 then Abort else if command == 2 then Attention
                              else if command == 3 then Acknowledge else Disconnect)
    {
      if command == 1 {
        pending := Some(Abort);
      } else if command == 2 {
        p := p.(attention := true);
        pending := Some(Attention);
      } else if command == 3 {
        pending := Some(Acknowledge);
      } else {
        pending := Some(Disconnect);
      }
    }

    method ResetBySoftware()
      modifies this
      ensures Value() == SoftwareReset(old(Value()))
    {
      var status := if r.ownId / 8 % 2 == 1 then 1 else 0;
      r := Registers(r.ownId, 0, 0, seq(12, _ => 0), 0, 0, 0, 0, status, 0);
      commandInProgress, interruptPending, pending, resetCompleted := false, true, None, true;
      p := NO_PROGRESS;
    }

    method ReadData() returns (value: Byte)
      modifies this`p, this`pending
      ensures (Value(), value) == ReadDataRegister(old(Value()))
    {
      if p.inputByte.None? {
        return 0xff;
      }
      value := p.inputByte.value;
      p := p.(inputByte := None);
      pending := Some(Pump);
    }

    method WriteData(value: Byte)
      modifies this`p, this`pending
      ensures Value() == WriteDataRegister(old(Value()), value)
    {
      if p.outputReady {
        p := p.(outputReady := false);
        pending := Some(Output(value));
      }
    }

    // Status

    method Raise(status: Byte)
      modifies this`r, this`p, this`commandInProgress, this`interruptPending
      ensures Value() == RaiseStatus(old(Value()), status)
    {
      r := r.(scsiStatus := status);
      commandInProgress := false;
      p := p.(busy := false, outputReady := false);
      interruptPending := true;
    }

    method ReportPhaseOf(bus: SharedBus, kind: Byte)
      requires bus.Valid() && kind % 8 == 0 && kind < 0xf8
      modifies this`r, this`p, this`commandInProgress, this`interruptPending
      ensures Value() == Reported(old(Value()), bus.Value(), kind)
    {
      hide RaiseStatus;
      if bus.connection.Some? {
        Raise(kind + PhaseBits(bus.connection.value.phase));
      } else {
        Raise(0x85);
      }
    }

    method AbortOn(bus: SharedBus)
      requires bus.Valid()
      modifies this`r, this`p, this`commandInProgress, this`interruptPending
      ensures Value() == AbortTransfer(old(Value()), bus.Value())
    {
      hide RaiseStatus;
      p := p.(pioPhase := None, aborting := false);
      if bus.connection.Some? {
        Raise(0x28 + PhaseBits(bus.connection.value.phase));
      } else {
        Raise(0x22);
      }
    }

    method Finish(status: Byte)
      modifies this
      ensures Value() == FinishSelectAndTransfer(old(Value()), status)
    {
      p := NO_PROGRESS;
      r := r.(targetLun := status);
      r := r.(commandPhase := COMPLETED_PHASE, scsiStatus := COMPLETED);
      commandInProgress, interruptPending, pending := false, true, None;
    }

    // The pump

    method CountByte()
      modifies this`r, this`p
      ensures Value() == AdvanceByte(old(Value()))
    {
      p := p.(pioRemaining := CountDown(p.pioRemaining));
      if p.singleByte {
        r := r.(transferCount := 0);
      } else {
        r := r.(transferCount := CountDown(r.transferCount));
      }
    }

    method EndPhase(bus: SharedBus, phase: Phase)
      requires bus.Valid()
      modifies this`r, this`p, this`commandInProgress, this`interruptPending
      ensures Value() == PhaseOver(old(Value()), bus.Value(), phase)
    {
      hide PhaseEnd;
      ReportEnd(bus, phase);
      assert bus.Targets() == old(bus.Targets());
      p := p.(pioPhase := None);
      assert bus.Targets() == old(bus.Targets());
    }

    method ReportEnd(bus: SharedBus, phase: Phase)
      requires bus.Valid()
      modifies this`r, this`p, this`commandInProgress, this`interruptPending
      ensures Value() == PhaseEnd(old(Value()), bus.Value(), phase)
    {
      hide RaiseStatus, Reported;
      if !p.combined && phase == MessageIn && p.pioRemaining == 0 {
        p := p.(ackAsserted := true);
        Raise(0x20);
      } else if p.combined {
        r := r.(commandPhase := DATA_TRANSFER_PHASE);
        ReportPhaseOf(bus, 0x48);
      } else if p.pioRemaining == 0 {
        ReportPhaseOf(bus, 0x18);
      } else {
        ReportPhaseOf(bus, 0x48);
      }
    }

    /** Status byte, completion message, acknowledgement. */
    method CollectStatus(bus: SharedBus, works: bool)
      requires bus.Valid() && Sound(bus.Value()) && PhaseOf(bus.Value()) == Some(StatusPhase)
      modifies this, bus, bus.Disks(), bus.Cdroms(), bus.backings
      ensures bus.Valid()
      ensures Served(Value(), bus.Value(), Ok(Idle)) == TakeStatus(old(Value()), old(bus.Value()), works)
    {
      hide Sound, ReadInformation, AcknowledgeMessage, FinishSelectAndTransfer;
      StatusRead(bus.Value());
      var status := bus.ReadByte(works);
      var message := bus.ReadByte(works);
      bus.Acknowledge(false);
      Finish(status.value.value);
    }

    method PumpOn(bus: SharedBus, works: bool) returns (work: Result<Work, BusError>)
      requires bus.Valid() && Sound(bus.Value())
      modifies this, bus, bus.Disks(), bus.Cdroms(), bus.backings
      ensures bus.Valid()
      ensures Served(Value(), bus.Value(), work) == PumpBus(old(Value()), old(bus.Value()), works)
      decreases if PhaseOf(bus.Value()) == Some(DataIn) then 1 else 0
    {
      hide Sound, ReadInformation, TakeStatus, PhaseOver, AbortTransfer, Staged, OutputReady, TargetsSound,
        TransactionSound, ConnectionSound, FinishSelectAndTransfer, RaiseStatus, Reported;
      if p.aborting && p.inputByte.None? {
        AbortOn(bus);
        return Ok(Idle);
      }
      if p.combined && PhaseOf(bus.Value()) == Some(StatusPhase) && p.inputByte.None? {
        CollectStatus(bus, works);
        return Ok(Idle);
      }
      if p.pioPhase.None? || p.inputByte.Some? {
        return Ok(Idle);
      }
      var phase := p.pioPhase.value;
      if p.pioRemaining == 0 || PhaseOf(bus.Value()) != Some(phase) {
        EndPhase(bus, phase);
        return Ok(Idle);
      }
      if (phase == DataIn || phase == DataOut) && r.control / 0x20 != 0 {
        return Ok(Dma(Input(phase), p.pioRemaining));
      }
      if Input(phase) {
        ReadSound(bus.Value(), works);
        var got := bus.ReadByte(works);
        match got {
          case Error(e) =>
            return Error(e);
          case Ok(Some(byte)) =>
            Stage(byte);
            return Ok(Idle);
          case Ok(None) =>
            work := PumpOn(bus, works);
            return;
        }
      }
      OfferOutput();
      return Ok(Idle);
    }

    method Stage(byte: Byte)
      modifies this`r, this`p
      ensures Value() == Staged(old(Value()), byte)
    {
      CountByte();
      p := p.(inputByte := Some(byte));
    }

    method OfferOutput()
      modifies this`p
      ensures Value() == OutputReady(old(Value()))
    {
      p := p.(outputReady := true);
    }

    // Requests

    method AwaitSelection() returns (work: Work)
      requires clockHz > 0
      modifies this`p, this`pending
      ensures forall bus: Bus :: Served(Value(), bus, Ok(work)) == WaitForSelection(old(Value()), bus, clockHz)
    {
      p := p.(busy := true);
      pending := Some(Timeout);
      if r.timeoutPeriod == 0 {
        return SelectionWait(None);
      }
      var attoseconds := r.timeoutPeriod * 80_000 * ATTOSECONDS_PER_SECOND;
      return SelectionWait(Some((attoseconds + clockHz - 1) / clockHz));
    }

    /** The bytes of a command, one handshake each. */
    method SendBytes(bus: SharedBus, bytes: seq<Byte>, works: bool) returns (sent: Result<bool, BusError>)
      requires bus.Valid() && Sound(bus.Value())
      modifies bus, bus.Disks(), bus.Cdroms(), bus.backings
      ensures bus.Valid() && Sound(bus.Value())
      ensures (bus.Value(), sent) == SendCommand(old(bus.Value()), bytes, works)
    {
      hide Sound, WriteInformation, TargetsSound, TransactionSound, ConnectionSound;
      var i := 0;
      assert bytes[0..] == bytes;
      while i < |bytes|
        invariant 0 <= i <= |bytes|
        invariant bus.Valid() && Sound(bus.Value())
        invariant SendCommand(bus.Value(), bytes[i..], works) == SendCommand(old(bus.Value()), bytes, works)
      {
        assert bytes[i..][0] == bytes[i] && bytes[i..][1..] == bytes[i + 1..];
        WriteKeeps(bus.Value(), bytes[i], false, works);
        sent := bus.WriteByte(bytes[i], false, works);
        if sent.Error? {
          return;
        }
        i := i + 1;
      }
      return Ok(true);
    }

    method PumpWindow(bus: SharedBus, works: bool) returns (work: Result<Work, BusError>)
      requires bus.Valid() && Sound(bus.Value())
      modifies this, bus, bus.Disks(), bus.Cdroms(), bus.backings
      ensures bus.Valid()
      ensures Served(Value(), bus.Value(), work) == Pumped(old(Value()), old(bus.Value()), works)
    {
      hide PumpBus, Sound;
      p := p.(pioPhase := PhaseOf(bus.Value()), pioRemaining := r.transferCount, singleByte := false);
      work := PumpOn(bus, works);
    }

    method SendCombined(bus: SharedBus, lun: nat, cdb: seq<Byte>, works: bool) returns (work: Result<Work, BusError>)
      requires bus.Valid() && Sound(bus.Value()) && lun < 8
      modifies this, bus, bus.Disks(), bus.Cdroms(), bus.backings
      ensures bus.Valid()
      ensures Served(Value(), bus.Value(), work) == StartCombined(old(Value()), old(bus.Value()), lun, cdb, works)
    {
      hide WriteInformation, SendCommand, Pumped, Sound;
      IdentifySound(bus.Value(), p.attention, lun, works);
      r := r.(commandPhase := 0x10);
      if p.attention {
        var identified := bus.WriteByte(0x80 + lun, true, works);
        if identified.Error? {
          return Error(identified.error);
        }
        p := p.(attention := false);
        r := r.(commandPhase := 0x20);
      }
      var sent := SendBytes(bus, cdb, works);
      if sent.Error? {
        return Error(sent.error);
      }
      work := PumpWindow(bus, works);
    }

    method ServeCombined(bus: SharedBus, targetId: nat, lun: nat, cdb: seq<Byte>, works: bool)
      returns (work: Result<Work, BusError>)
      requires bus.Valid() && Sound(bus.Value()) && lun < 8 && clockHz > 0
      modifies this, bus, bus.Disks(), bus.Cdroms(), bus.backings
      ensures bus.Valid()
      ensures Served(Value(), bus.Value(), work)
           == CombinedRequest(old(Value()), old(bus.Value()), targetId, lun, cdb, works, clockHz)
    {
      hide Select, StartCombined, Pumped, Sound, WaitForSelection, RaiseStatus;
      if bus.connection.None? {
        SelectSound(bus.Value(), targetId, p.attention);
        var selected := bus.SelectTarget(targetId, p.attention);
        if selected.Error? {
          return Error(selected.error);
        }
        if !selected.value {
          var wait := AwaitSelection();
          return Ok(wait);
        }
        work := SendCombined(bus, lun, cdb, works);
      } else if bus.connection.value.targetId != targetId
                || !(r.commandPhase == 0x45 || r.commandPhase == DATA_TRANSFER_PHASE) {
        Raise(INVALID_STATE);
        return Ok(Idle);
      } else {
        work := PumpWindow(bus, works);
      }
    }

    method ServeSelect(bus: SharedBus, targetId: nat, attention: bool) returns (work: Result<Work, BusError>)
      requires bus.Valid() && Sound(bus.Value()) && clockHz > 0
      modifies this, bus, bus.Disks(), bus.Cdroms(), bus.backings
      ensures bus.Valid()
      ensures Served(Value(), bus.Value(), work)
           == SelectRequest(old(Value()), old(bus.Value()), targetId, attention, clockHz)
    {
      hide Select, Sound, WaitForSelection, RaiseStatus;
      if bus.connection.Some? {
        Raise(INVALID_STATE);
        return Ok(Idle);
      }
      var selected := bus.SelectTarget(targetId, attention);
      if selected.Error? {
        return Error(selected.error);
      }
      if !selected.value {
        var wait := AwaitSelection();
        return Ok(wait);
      }
      Raise(0x11);
      p := p.(phaseAfterStatus := true);
      return Ok(Idle);
    }

    method ServeOut(bus: SharedBus, value: Byte, works: bool) returns (work: Result<Work, BusError>)
      requires bus.Valid() && Sound(bus.Value())
      modifies this, bus, bus.Disks(), bus.Cdroms(), bus.backings
      ensures bus.Valid()
      ensures Served(Value(), bus.Value(), work) == ServeOutput(old(Value()), old(bus.Value()), value, works)
    {
      hide WriteInformation, PumpBus, Sound, AdvanceByte;
      var last := p.pioRemaining == 1;
      WriteKeeps(bus.Value(), value, last, works);
      var consumed := bus.WriteByte(value, last, works);
      if consumed.Error? {
        return Error(consumed.error);
      }
      AfterByte(last, consumed.value);
      work := PumpOn(bus, works);
    }

    method AfterByte(last: bool, consumed: bool)
      modifies this`r, this`p
      ensures Value() == AfterOutput(old(Value()), last, consumed)
    {
      if consumed {
        CountByte();
      }
      if p.pioPhase == Some(MessageOut) && last {
        p := p.(attention := false);
      }
    }

    method ServeRaise(bus: SharedBus, works: bool) returns (work: Result<Work, BusError>)
      requires bus.Valid() && Sound(bus.Value())
      modifies this, bus, bus.Disks(), bus.Cdroms(), bus.backings
      ensures bus.Valid()
      ensures Served(Value(), bus.Value(), work) == ServeAttention(old(Value()), old(bus.Value()), works)
    {
      hide AssertAttention, PumpBus, Sound, RaiseStatus, Reported;
      if bus.connection.None? {
        Raise(INVALID_STATE);
      } else if !p.ackAsserted {
        HandshakesKeep(bus.Value(), false);
        bus.RaiseAttention();
        if interruptPending {
          p := p.(phaseAfterStatus := true);
        } else if p.busy {
          work := PumpOn(bus, works);
          return;
        } else {
          ReportPhaseOf(bus, 0x88);
        }
      }
      return Ok(Idle);
    }

    /** One request of the scheduler. */
    method Serve(bus: SharedBus, request: Request, works: bool) returns (work: Result<Work, BusError>)
      requires bus.Valid() && Sound(bus.Value()) && clockHz > 0
      modifies this, bus, bus.Disks(), bus.Cdroms(), bus.backings
      ensures bus.Valid()
      ensures Served(Value(), bus.Value(), work)
           == ServeRequest(old(Value()), old(bus.Value()), request, works, clockHz)
    {
      hide Sound, CombinedRequest, SelectRequest, PumpBus, ServeOutput, ServeAttention, Reported, AbortTransfer;
      hide RaiseStatus, AcknowledgeMessage, FinishSelectionTimeout;
      commandInProgress := false;
      match request {
        case SelectOnly(targetId, attention) =>
          work := ServeSelect(bus, targetId, attention);
          return;
        case Combined(targetId, lun, cdb) =>
          work := ServeCombined(bus, targetId, lun, cdb, works);
          return;
        case TransferInfo =>
          work := ServeTransfer(bus, works);
          return;
        case Pump =>
          work := PumpOn(bus, works);
          return;
        case Output(value) =>
          work := ServeOut(bus, value, works);
          return;
        case Attention =>
          work := ServeRaise(bus, works);
          return;
        case _ =>
          ServeAtOnce(bus, request);
          return Ok(Idle);
      }
    }

    method ServeTransfer(bus: SharedBus, works: bool) returns (work: Result<Work, BusError>)
      requires bus.Valid() && Sound(bus.Value())
      modifies this, bus, bus.Disks(), bus.Cdroms(), bus.backings
      ensures bus.Valid()
      ensures Served(Value(), bus.Value(), work) == TransferRequest(old(Value()), old(bus.Value()), works)
    {
      hide Sound, PumpBus, RaiseStatus, TargetsSound, TransactionSound, ConnectionSound;
      if bus.connection.None? {
        Raise(INVALID_STATE);
        return Ok(Idle);
      }
      p := p.(pioPhase := Some(bus.connection.value.phase), pioRemaining := if p.singleByte then 1 else r.transferCount);
      assert bus.Targets() == old(bus.Targets());
      work := PumpOn(bus, works);
    }

    /** The requests that never move data. */
    method ServeAtOnce(bus: SharedBus, request: Request)
      requires bus.Valid()
      requires request.ReportPhase? || request.Acknowledge? || request.Abort? || request.Disconnect? || request.Timeout?
      modifies this, bus, bus.Disks(), bus.Cdroms(), bus.backings
      ensures bus.Valid()
      ensures Served(Value(), bus.Value(), Ok(Idle)) == AtOnce(old(Value()), old(bus.Value()), request)
    {
      hide RaiseStatus, Reported, AcknowledgeMessage, AbortTransfer;
      match request {
        case ReportPhase =>
          ReportPhaseOf(bus, 0x88);
        case Acknowledge =>
          if p.ackAsserted {
            p := p.(ackAsserted := false);
            bus.Acknowledge(p.attention);
            ReportPhaseOf(bus, 0x88);
          }
        case Abort =>
          if p.inputByte.Some? {
            p := p.(aborting := true);
          } else {
            AbortOn(bus);
          }
        case Disconnect =>
          bus.CancelTransaction();
          p := NO_PROGRESS;
        case Timeout =>
          FinishTimeout();
      }
    }

    method FinishTimeout()
      modifies this
      ensures Value() == FinishSelectionTimeout(old(Value()))
    {
      p := NO_PROGRESS;
      r := r.(commandPhase := 0, scsiStatus := SELECTION_TIMED_OUT);
      commandInProgress, interruptPending, pending := false, true, None;
    }
  }
}
