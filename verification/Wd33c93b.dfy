/**
 The WD33C93B SCSI controller against the functional bus: its commands, the requests
 they leave for the machine's scheduler, and the pump that moves one byte at a time
 between the bus and the host's one-byte staging buffer.
 */
module Wd33c93b {
  import opened Arithmetic
  import opened Options
  import opened Words
  import opened ScsiTargets
  import opened ScsiBus
  import opened ScsiConnection
  import opened ScsiRun

  const DATA_TRANSFER_PHASE: Byte := 0x46
  const COMPLETED_PHASE: Byte := 0x60
  const COMPLETED: Byte := 0x16
  const SELECTION_TIMED_OUT: Byte := 0x42
  const INVALID_STATE: Byte := 0x40
  const UNEXPECTED_DATA_IN: Byte := 0x49

  type CdbRegisters = s: seq<Byte> | |s| == 12 witness seq(12, _ => 0)
  /** What the host can program into the count register. */
  type TransferCount = x: int | 0 <= x < 0x100_0000

  type UnitNumber = x: int | 0 <= x < 8

  datatype Registers = Registers(
    ownId: Byte,
    control: Byte,
    timeoutPeriod: Byte,
    cdb: CdbRegisters,
    targetLun: Byte,
    commandPhase: Byte,
    transferCount: Word,
    destinationId: Byte,
    scsiStatus: Byte,
    command: Byte)

  /** What a transfer in progress needs; cleared as a whole. */
  datatype Progress = Progress(
    busy: bool,
    combined: bool,
    attention: bool,
    ackAsserted: bool,
    phaseAfterStatus: bool,
    pioPhase: Option<Phase>,
    pioRemaining: Word,
    singleByte: bool,
    inputByte: Option<Byte>,
    outputReady: bool,
    aborting: bool)

  const NO_PROGRESS := Progress(false, false, false, false, false, None, 0, false, None, false, false)

  datatype Request =
    | Combined(targetId: nat, lun: UnitNumber, cdb: seq<Byte>)
    | SelectOnly(targetId: nat, attention: bool)
    | TransferInfo
    | Pump
    | Output(value: Byte)
    | ReportPhase
    | Acknowledge
    | Attention
    | Abort
    | Disconnect
    | Timeout

  /** Board work that a serviced request leaves. */
  datatype Work = Idle | Dma(input: bool, count: nat) | SelectionWait(after: Option<nat>)

  datatype Wd = Wd(
    r: Registers,
    p: Progress,
    commandInProgress: bool,
    interruptPending: bool,
    pending: Option<Request>,
    resetCompleted: bool)

  /** The controller, the bus and the work or error after a service call. */
  datatype Served = Served(wd: Wd, bus: Bus, work: Result<Work, BusError>)

  function PhaseOf(bus: Bus): Option<Phase> {
    if bus.connection.Some? then Some(bus.connection.value.phase) else None
  }

  /** The MSG, C/D and I/O signals of a phase. */
  function PhaseBits(phase: Phase): (bits: Byte)
    ensures bits < 8
  {
    match phase
    case DataOut => 0
    case DataIn => 1
    case Command => 2
    case StatusPhase => 3
    case MessageOut => 6
    case MessageIn => 7
  }

  predicate Input(phase: Phase) {
    phase == DataIn || phase == StatusPhase || phase == MessageIn
  }

  /** The controller's own table of command lengths: no group of sixteen bytes. */
  function RequestedLength(opcode: Byte): (length: nat)
    ensures 6 <= length <= 12
  {
    if opcode == 0xc4 || opcode == 0xc9 then 10
    else
      match opcode / 0x20
      case 0 => 6
      case 1 => 10
      case 2 => 10
      case 5 => 12
      case _ => 6
  }

  /** Controller and target read a command alike exactly outside the group of sixteen bytes. */
  lemma LengthsAgree(opcode: Byte)
    ensures RequestedLength(opcode) == CdbLength(opcode) <==> opcode / 0x20 != 4
  {
    var group := opcode / 0x20;
    assert group < 8;
    assert opcode == 0xc4 || opcode == 0xc9 ==> group == 6;
  }

  // Commands from the host

  function SoftwareReset(wd: Wd): Wd {
    var status := if wd.r.ownId / 8 % 2 == 1 then 1 else 0;
    Wd(Registers(wd.r.ownId, 0, 0, seq(12, _ => 0), 0, 0, 0, 0, status, 0), NO_PROGRESS, false, true, None, true)
  }

  function SelectAndTransfer(wd: Wd, attention: bool): Wd {
    var r := wd.r;
    wd.(p := wd.p.(busy := true, combined := true, attention := attention, phaseAfterStatus := false),
        commandInProgress := true, interruptPending := false, resetCompleted := false,
        pending := Some(Combined(r.destinationId % 8, r.targetLun % 8, r.cdb[..RequestedLength(r.cdb[0])])))
  }

  /** The supported commands; the host interface refuses the others. */
  predicate Supported(command: Byte) {
    command <= 4 || 6 <= command <= 9 || command == 0x20 || command == 0xa0
  }

  function ExecuteCommand(wd: Wd, command: Byte): Wd
    requires Supported(command)
  {
    var s := wd.(r := wd.r.(command := command), pending := None, p := wd.p.(phaseAfterStatus := false));
    if command == 0 then SoftwareReset(s)
    else if command == 8 || command == 9 then SelectAndTransfer(s, command == 8)
    else if command == 6 || command == 7 then
      s.(p := NO_PROGRESS.(busy := true, attention := command == 6), commandInProgress := true,
         interruptPending := false, pending := Some(SelectOnly(s.r.destinationId % 8, command == 6)))
    else if command == 0x20 || command == 0xa0 then
      s.(p := s.p.(combined := false, busy := true, inputByte := None, outputReady := false,
                   singleByte := command == 0xa0 || s.r.transferCount == 0),
         commandInProgress := true, interruptPending := false, pending := Some(TransferInfo))
    else if command == 1 then s.(pending := Some(Abort))
    else if command == 2 then s.(p := s.p.(attention := true), pending := Some(Attention))
    else if command == 3 then s.(pending := Some(Acknowledge))
    else s.(pending := Some(Disconnect))
  }

  /** The host takes the staged byte; the pump fetches the next one. */
  function ReadDataRegister(wd: Wd): (Wd, Byte) {
    if wd.p.inputByte.None? then (wd, 0xff)
    else (wd.(p := wd.p.(inputByte := None), pending := Some(Pump)), wd.p.inputByte.value)
  }

  function WriteDataRegister(wd: Wd, value: Byte): Wd {
    if wd.p.outputReady then wd.(p := wd.p.(outputReady := false), pending := Some(Output(value))) else wd
  }

  // Status

  function RaiseStatus(wd: Wd, status: Byte): Wd {
    wd.(r := wd.r.(scsiStatus := status), commandInProgress := false,
        p := wd.p.(busy := false, outputReady := false), interruptPending := true)
  }

  /** A status of the given class with the bus's phase, or that the target has gone. */
  function Reported(wd: Wd, bus: Bus, kind: Byte): Wd
    requires kind % 8 == 0 && kind < 0xf8
  {
    RaiseStatus(wd, if PhaseOf(bus).Some? then kind + PhaseBits(PhaseOf(bus).value) else 0x85)
  }

  function AbortTransfer(wd: Wd, bus: Bus): Wd {
    var s := wd.(p := wd.p.(pioPhase := None, aborting := false));
    RaiseStatus(s, if PhaseOf(bus).Some? then 0x28 + PhaseBits(PhaseOf(bus).value) else 0x22)
  }

  function FinishSelectAndTransfer(wd: Wd, status: Byte): Wd {
    wd.(r := wd.r.(targetLun := status, commandPhase := COMPLETED_PHASE, scsiStatus := COMPLETED), p := NO_PROGRESS,
        commandInProgress := false, interruptPending := true, pending := None)
  }

  function FinishSelectionTimeout(wd: Wd): Wd {
    wd.(r := wd.r.(commandPhase := 0, scsiStatus := SELECTION_TIMED_OUT), p := NO_PROGRESS,
        commandInProgress := false, interruptPending := true, pending := None)
  }

  /** The register counts 80 000 input clocks; zero waits for ever. */
  function WaitForSelection(wd: Wd, bus: Bus, clockHz: nat): Served
    requires clockHz > 0
  {
    var waiting := wd.(p := wd.p.(busy := true), pending := Some(Timeout));
    var attoseconds := wd.r.timeoutPeriod * 80_000 * ATTOSECONDS_PER_SECOND;
    Served(waiting, bus,
           Ok(SelectionWait(if wd.r.timeoutPeriod == 0 then None else Some((attoseconds + clockHz - 1) / clockHz))))
  }

  // The pump

  /** One less, as the 32-bit subtraction of an optimised build has it. */
  function CountDown(count: Word): Word {
    if count == 0 then 0xffff_ffff else count - 1
  }

  /** One byte has crossed. */
  function AdvanceByte(wd: Wd): Wd {
    var count := if wd.p.singleByte then 0 else CountDown(wd.r.transferCount);
    wd.(r := wd.r.(transferCount := count), p := wd.p.(pioRemaining := CountDown(wd.p.pioRemaining)))
  }

  /** A byte for the host. */
  function Staged(wd: Wd, byte: Byte): Wd {
    var moved := AdvanceByte(wd);
    moved.(p := moved.p.(inputByte := Some(byte)))
  }

  /** Room for a byte from the host. */
  function OutputReady(wd: Wd): Wd {
    wd.(p := wd.p.(outputReady := true))
  }

  /** The target's status and completion message end a combined command. */
  function TakeStatus(wd: Wd, bus: Bus, works: bool): Served
    requires Sound(bus) && PhaseOf(bus) == Some(StatusPhase)
  {
    var (b1, status) := ReadInformation(bus, works);
    StatusRead(bus);
    var (b2, message) := ReadInformation(b1, works);
    Served(FinishSelectAndTransfer(wd, status.value.value), AcknowledgeMessage(b2, false), Ok(Idle))
  }

  lemma StatusRead(bus: Bus)
    requires Sound(bus) && PhaseOf(bus) == Some(StatusPhase)
    ensures forall works :: ReadInformation(bus, works).1.Ok? && ReadInformation(bus, works).1.value.Some?
    ensures forall works :: Sound(ReadInformation(bus, works).0)
    ensures forall works1, works2 :: ReadInformation(ReadInformation(bus, works1).0, works2).1 == Ok(Some(0))
  {
    var c := bus.connection.value;
    var b1 := Connected(bus, c.(phase := MessageIn, messageIn := [0], messageOffset := 0));
    assert forall works :: ReadInformation(bus, works).0 == b1;
    var slot :| c.targetId * 8 <= slot < c.targetId * 8 + 8 && bus.targets[slot].Some?;
    assert b1.targets[slot].Some?;
  }

  /** The status of a phase whose count is used up, or that the target has left. */
  function PhaseEnd(wd: Wd, bus: Bus, phase: Phase): Wd {
    if !wd.p.combined && phase == MessageIn && wd.p.pioRemaining == 0 then
      RaiseStatus(wd.(p := wd.p.(ackAsserted := true)), 0x20)
    else if wd.p.combined then Reported(wd.(r := wd.r.(commandPhase := DATA_TRANSFER_PHASE)), bus, 0x48)
    else Reported(wd, bus, if wd.p.pioRemaining == 0 then 0x18 else 0x48)
  }

  function PhaseOver(wd: Wd, bus: Bus, phase: Phase): Wd {
    var s := PhaseEnd(wd, bus, phase);
    s.(p := s.p.(pioPhase := None))
  }

  function PumpBus(wd: Wd, bus: Bus, works: bool): Served
    requires Sound(bus)
    decreases if PhaseOf(bus) == Some(DataIn) then 1 else 0
  {
    hide Sound, ReadInformation, TakeStatus, PhaseOver, AbortTransfer;
    if wd.p.aborting && wd.p.inputByte.None? then Served(AbortTransfer(wd, bus), bus, Ok(Idle))
    else if wd.p.combined && PhaseOf(bus) == Some(StatusPhase) && wd.p.inputByte.None? then TakeStatus(wd, bus, works)
    else if wd.p.pioPhase.None? || wd.p.inputByte.Some? then Served(wd, bus, Ok(Idle))
    else
      var phase := wd.p.pioPhase.value;
      if wd.p.pioRemaining == 0 || PhaseOf(bus) != Some(phase) then Served(PhaseOver(wd, bus, phase), bus, Ok(Idle))
      else if (phase == DataIn || phase == DataOut) && wd.r.control / 0x20 != 0 then
        Served(wd, bus, Ok(Dma(Input(phase), wd.p.pioRemaining)))
      else if Input(phase) then
        var (after, got) := ReadInformation(bus, works);
        ReadSound(bus, works);
        match got
        case Error(e) => Served(wd, after, Error(e))
        case Ok(Some(byte)) => Served(Staged(wd, byte), after, Ok(Idle))
        case Ok(None) => PumpBus(wd, after, works)
      else Served(OutputReady(wd), bus, Ok(Idle))
  }

  /** No byte comes only when storage failed; then the target is in its status phase. */
  lemma ReadSound(bus: Bus, works: bool)
    requires Sound(bus)
    ensures Sound(ReadInformation(bus, works).0)
    ensures PhaseOf(bus) != Some(DataIn) ==> ReadInformation(bus, works).1 != Ok(None)
    ensures ReadInformation(bus, works).1 == Ok(None) ==> PhaseOf(ReadInformation(bus, works).0) == Some(StatusPhase)
  {
    ReadKeeps(bus, works);
    if PhaseOf(bus) == Some(DataIn) {
      InKeeps(bus, 1, true, works);
      OneByteMoves(bus, works);
      hide Sound, TransferIn;
    }
  }

  lemma OneByteMoves(bus: Bus, works: bool)
    requires TransactionSound(bus)
    ensures var (after, chunk) := TransferIn(bus, 1, true, works);
            after.connection == bus.connection && !chunk.Rejected? && (chunk.More? ==> |chunk.moved| == 1)
  {
    hide CompleteStorage;
  }

  // Servicing requests

  /** The controller after selection, and after IDENTIFY if attention was asserted. */
  function AfterSelection(wd: Wd): Wd {
    wd.(r := wd.r.(commandPhase := if wd.p.attention then 0x20 else 0x10), p := wd.p.(attention := false))
  }

  /** IDENTIFY names the logical unit, with attention; without it nothing is said. */
  function Identify(bus: Bus, attention: bool, lun: nat, works: bool): (Bus, Result<bool, BusError>)
    requires Sound(bus) && lun < 8
  {
    if attention then WriteInformation(bus, 0x80 + lun, true, works) else (bus, Ok(true))
  }

  lemma IdentifySound(bus: Bus, attention: bool, lun: nat, works: bool)
    requires Sound(bus) && lun < 8
    ensures Sound(Identify(bus, attention, lun, works).0)
  {
    WriteKeeps(bus, 0x80 + lun, true, works);
  }

  /** The command of a selected target, and then its data. */
  function StartCombined(wd: Wd, bus: Bus, lun: nat, cdb: seq<Byte>, works: bool): Served
    requires Sound(bus) && lun < 8
  {
    hide *;
    var (identifiedBus, identified) := Identify(bus, wd.p.attention, lun, works);
    IdentifySound(bus, wd.p.attention, lun, works);
    if identified.Error? then
      Served(wd.(r := wd.r.(commandPhase := 0x10)), identifiedBus, Error(identified.error))
    else
      var (sentBus, sent) := SendCommand(identifiedBus, cdb, works);
      if sent.Error? then Served(AfterSelection(wd), sentBus, Error(sent.error)) else Pumped(AfterSelection(wd), sentBus, works)
  }

  function CombinedRequest(wd: Wd, bus: Bus, targetId: nat, lun: nat, cdb: seq<Byte>, works: bool, clockHz: nat): Served
    requires Sound(bus) && lun < 8 && clockHz > 0
  {
    if PhaseOf(bus).None? then
      var (b1, selected) := Select(bus, targetId, wd.p.attention);
      SelectSound(bus, targetId, wd.p.attention);
      if selected.Error? then Served(wd, b1, Error(selected.error))
      else if !selected.value then WaitForSelection(wd, b1, clockHz)
      else StartCombined(wd, b1, lun, cdb, works)
    else if bus.connection.value.targetId != targetId
            || !(wd.r.commandPhase == 0x45 || wd.r.commandPhase == DATA_TRANSFER_PHASE) then
      Served(RaiseStatus(wd, INVALID_STATE), bus, Ok(Idle))
    else Pumped(wd, bus, works)
  }

  /** A transfer of the whole count in the bus's phase. */
  function Pumped(wd: Wd, bus: Bus, works: bool): Served
    requires Sound(bus)
  {
    PumpBus(wd.(p := wd.p.(pioPhase := PhaseOf(bus), pioRemaining := wd.r.transferCount, singleByte := false)), bus, works)
  }

  lemma SelectSound(bus: Bus, targetId: nat, attention: bool)
    requires Sound(bus)
    ensures Sound(Select(bus, targetId, attention).0)
  {
    StepKeepsSound(bus, Selected(targetId, attention));
  }

  /** The bytes of a command, one by one, up to the first that the bus does not take. */
  function SendCommand(bus: Bus, bytes: seq<Byte>, works: bool): (r: (Bus, Result<bool, BusError>))
    requires Sound(bus)
    ensures Sound(r.0)
    decreases |bytes|
  {
    if bytes == [] then (bus, Ok(true))
    else
      var (after, taken) := WriteInformation(bus, bytes[0], false, works);
      WriteKeeps(bus, bytes[0], false, works);
      if taken.Error? then (after, taken) else SendCommand(after, bytes[1..], works)
  }

  /** The controller after the target took the host's byte, or did not. */
  function AfterOutput(wd: Wd, last: bool, consumed: bool): Wd {
    var moved := if consumed then AdvanceByte(wd) else wd;
    if wd.p.pioPhase == Some(MessageOut) && last then moved.(p := moved.p.(attention := false)) else moved
  }

  function WriteSound(bus: Bus, value: Byte, last: bool, works: bool): (r: (Bus, Result<bool, BusError>))
    requires Sound(bus)
    ensures r == WriteInformation(bus, value, last, works) && Sound(r.0)
  {
    WriteKeeps(bus, value, last, works);
    WriteInformation(bus, value, last, works)
  }

  function ServeOutput(wd: Wd, bus: Bus, value: Byte, works: bool): Served
    requires Sound(bus)
  {
    hide *;
    var last := wd.p.pioRemaining == 1;
    var (after, consumed) := WriteSound(bus, value, last, works);
    if consumed.Error? then Served(wd, after, Error(consumed.error))
    else PumpBus(AfterOutput(wd, last, consumed.value), after, works)
  }

  function ServeAttention(wd: Wd, bus: Bus, works: bool): Served
    requires Sound(bus)
  {
    if PhaseOf(bus).None? then Served(RaiseStatus(wd, INVALID_STATE), bus, Ok(Idle))
    else if wd.p.ackAsserted then Served(wd, bus, Ok(Idle))
    else
      var raised := AssertAttention(bus);
      HandshakesKeep(bus, false);
      if wd.interruptPending then Served(wd.(p := wd.p.(phaseAfterStatus := true)), raised, Ok(Idle))
      else if wd.p.busy then PumpBus(wd, raised, works)
      else Served(Reported(wd, raised, 0x88), raised, Ok(Idle))
  }

  function SelectRequest(wd: Wd, bus: Bus, targetId: nat, attention: bool, clockHz: nat): Served
    requires Sound(bus) && clockHz > 0
  {
    if PhaseOf(bus).Some? then Served(RaiseStatus(wd, INVALID_STATE), bus, Ok(Idle))
    else
      var (after, selected) := Select(bus, targetId, attention);
      if selected.Error? then Served(wd, after, Error(selected.error))
      else if !selected.value then WaitForSelection(wd, after, clockHz)
      else
        var raised := RaiseStatus(wd, 0x11);
        Served(raised.(p := raised.p.(phaseAfterStatus := true)), after, Ok(Idle))
  }

  function TransferRequest(wd: Wd, bus: Bus, works: bool): Served
    requires Sound(bus)
  {
    if PhaseOf(bus).None? then Served(RaiseStatus(wd, INVALID_STATE), bus, Ok(Idle))
    else
      PumpBus(wd.(p := wd.p.(pioPhase := PhaseOf(bus),
                             pioRemaining := if wd.p.singleByte then 1 else wd.r.transferCount)), bus, works)
  }

  /** The requests that never move data. */
  function AtOnce(wd: Wd, bus: Bus, request: Request): Served
    requires request.ReportPhase? || request.Acknowledge? || request.Abort? || request.Disconnect? || request.Timeout?
  {
    match request
    case ReportPhase => Served(Reported(wd, bus, 0x88), bus, Ok(Idle))
    case Acknowledge =>
      if !wd.p.ackAsserted then Served(wd, bus, Ok(Idle))
      else
        var after := AcknowledgeMessage(bus, wd.p.attention);
        Served(Reported(wd.(p := wd.p.(ackAsserted := false)), after, 0x88), after, Ok(Idle))
    case Abort =>
      if wd.p.inputByte.Some? then Served(wd.(p := wd.p.(aborting := true)), bus, Ok(Idle))
      else Served(AbortTransfer(wd, bus), bus, Ok(Idle))
    case Disconnect => Served(wd.(p := NO_PROGRESS), CancelTransaction(bus), Ok(Idle))
    case Timeout => Served(FinishSelectionTimeout(wd), bus, Ok(Idle))
  }

  function ServeRequest(w: Wd, bus: Bus, request: Request, works: bool, clockHz: nat): Served
    requires Sound(bus) && clockHz > 0
  {
    var wd := w.(commandInProgress := false);
    match request
    case SelectOnly(targetId, attention) => SelectRequest(wd, bus, targetId, attention, clockHz)
    case Combined(targetId, lun, cdb) => CombinedRequest(wd, bus, targetId, lun, cdb, works, clockHz)
    case TransferInfo => TransferRequest(wd, bus, works)
    case Pump => PumpBus(wd, bus, works)
    case Output(value) => ServeOutput(wd, bus, value, works)
    case Attention => ServeAttention(wd, bus, works)
    case _ => AtOnce(wd, bus, request)
  }
}
