/**
 The information phases of a connection: selection, messages, command bytes, data,
 status and the completion message, one byte at a time.
 */
module ScsiConnection {
  import opened Options
  import opened Words
  import opened ScsiTargets
  import opened ScsiBus

  const MESSAGE_LIMIT: nat := 257

  /** The length of a command by its group; two vendor codes of ten bytes stand outside the groups. */
  function CdbLength(opcode: Byte): (length: nat)
    ensures 6 <= length <= 16
  {
    if opcode == 0xc4 || opcode == 0xc9 then 10
    else
      match opcode / 0x20
      case 0 => 6
      case 1 => 10
      case 2 => 10
      case 4 => 16
      case 5 => 12
      case _ => 6
  }

  function Connected(bus: Bus, c: Connection): Bus {
    bus.(connection := Some(c))
  }

  function SetStatus(bus: Bus, status: Status): Bus {
    if bus.connection.None? then bus
    else Connected(bus, bus.connection.value.(status := status, phase := StatusPhase))
  }

  /** An absent target leaves the bus free. */
  function Select(bus: Bus, targetId: nat, attention: bool): (Bus, Result<bool, BusError>) {
    if Busy(bus) then (bus, Error(InvalidPhase))
    else if !Present(bus, targetId) then (bus, Ok(false))
    else
      (Connected(bus, Connection(targetId, 0, false, if attention then MessageOut else Command, Command,
                                 [], [], [], 0, Good)), Ok(true))
  }

  // Messages

  /** What a string of messages asks for: a logical unit, and a reply. */
  datatype Messages = Messages(lun: nat, identified: bool, reply: seq<Byte>)

  function Parse(bytes: seq<Byte>, m: Messages): Messages
    decreases |bytes|
  {
    if bytes == [] then m
    else if bytes[0] >= 0x80 then Parse(bytes[1..], m.(lun := bytes[0] % 8, identified := true))
    else if bytes[0] == 1 && |bytes| >= 5 && bytes[1] == 3 && bytes[2] == 1 then
      Parse(bytes[5..], m.(reply := m.reply + [1, 3, 1, bytes[3], 0]))
    else if bytes[0] == 7 || bytes[0] == 8 then Parse(bytes[1..], m)
    else m.(reply := m.reply + [7])
  }

  function FinishMessageOut(bus: Bus): Bus
    requires bus.connection.Some?
  {
    var c := bus.connection.value;
    if c.messageOut == [6] then CancelTransaction(bus)
    else
      var m := Parse(c.messageOut, Messages(c.lun, c.identified, []));
      var heard := c.(messageOut := [], lun := m.lun, identified := m.identified);
      if m.reply == [] then Connected(bus, heard.(phase := c.returnPhase))
      else Connected(bus, heard.(messageIn := m.reply, messageOffset := 0, phase := MessageIn))
  }

  // Commands

  /** The first attached logical unit of a target. */
  function FirstUnit(bus: Bus, slot: nat): nat
    requires slot <= SLOTS
    decreases SLOTS - slot
  {
    if slot == SLOTS || bus.targets[slot].Some? then slot else FirstUnit(bus, slot + 1)
  }

  /** The reply for a logical unit that is not there, by whichever unit of the target is. */
  function MissingUnit(bus: Bus, cdb: seq<Byte>): Bus
    requires bus.connection.Some? && bus.connection.value.targetId < 8 && |cdb| >= 6
  {
    var c := bus.connection.value;
    if cdb[0] != 0x12 && cdb[0] != 0x03 then SetStatus(bus, CheckCondition)
    else
      var reply := if cdb[0] == 0x12 then Truncated([0x7f, 0, 0, 0, 31] + seq(31, _ => 0), cdb[4])
                   else FixedSense(SenseData(5, 0x25, 0), cdb[4]);
      if reply == [] then SetStatus(bus, Good)
      else
        Connected(bus.(transaction := Some(Transaction(FirstUnit(bus, c.targetId * 8), Immediate(reply, 0, Good)))),
                  c.(phase := DataIn))
  }

  /** Without IDENTIFY a command of group 0 names its logical unit itself. */
  function UnitOf(c: Connection): nat
    requires |c.cdb| >= 2
  {
    if !c.identified && c.cdb[0] / 0x20 == 0 then c.cdb[1] / 0x20 else c.lun
  }

  function ExecuteConnected(bus: Bus): (Bus, Result<bool, BusError>)
    requires TargetsSound(bus) && bus.connection.Some? && bus.connection.value.targetId < 8
    requires |bus.connection.value.cdb| >= 6
  {
    var c := bus.connection.value.(lun := UnitOf(bus.connection.value));
    var (started, result) := StartCommand(Connected(bus, c), c.targetId, c.lun, c.cdb);
    match result
    case Error(e) => (started, Error(e))
    case Ok(Finished(status)) => (SetStatus(started, status), Ok(true))
    case Ok(StartedIn(_)) => (Connected(started, c.(phase := DataIn)), Ok(true))
    case Ok(StartedOut(_)) => (Connected(started, c.(phase := DataOut)), Ok(true))
    case Ok(SelectionTimeout) => (MissingUnit(Connected(started, c), c.cdb), Ok(true))
  }

  /** The end of a transfer brings the connection, if there is one, to its status. */
  function Observe(bus: Bus, chunk: Chunk): Bus {
    if chunk.Ended? then SetStatus(bus, chunk.status) else bus
  }

  // Bytes

  /** One byte from the initiator; `last` releases attention.  The answer tells whether storage took the byte. */
  function WriteInformation(bus: Bus, value: Byte, last: bool, works: bool): (Bus, Result<bool, BusError>)
    requires Sound(bus)
  {
    if bus.connection.None? then (bus, Error(InvalidPhase))
    else
      var c := bus.connection.value;
      match c.phase
      case MessageOut =>
        if |c.messageOut| == MESSAGE_LIMIT then (bus, Error(InvalidPhase))
        else
          var heard := Connected(bus, c.(messageOut := c.messageOut + [value]));
          (if last then FinishMessageOut(heard) else heard, Ok(true))
      case Command =>
        if |c.cdb| == 16 then (bus, Error(InvalidPhase))
        else
          var heard := c.(cdb := c.cdb + [value]);
          if |heard.cdb| == CdbLength(heard.cdb[0]) then ExecuteConnected(Connected(bus, heard))
          else (Connected(bus, heard), Ok(true))
      case DataOut =>
        var (after, chunk) := TransferOut(bus, 1, Some([value]), works);
        if chunk.Refused? then (after, Error(chunk.error))
        else (Observe(after, chunk), Ok((chunk.More? || chunk.Ended?) && |chunk.moved| == 1))
      case _ => (bus, Error(InvalidPhase))
  }

  /** One byte from the target, or none when storage failed and the target went to its status. */
  function ReadInformation(bus: Bus, works: bool): (Bus, Result<Option<Byte>, BusError>)
    requires Sound(bus)
  {
    if bus.connection.None? then (bus, Error(InvalidPhase))
    else
      var c := bus.connection.value;
      match c.phase
      case DataIn =>
        var (after, chunk) := TransferIn(bus, 1, true, works);
        if chunk.Refused? then (after, Error(chunk.error))
        else
          var moved := if chunk.Rejected? then [] else chunk.moved;
          (Observe(after, chunk), Ok(if moved == [] then None else Some(moved[0])))
      case StatusPhase =>
        (Connected(bus, c.(phase := MessageIn, messageIn := [0], messageOffset := 0)), Ok(Some(StatusByte(c.status))))
      case MessageIn =>
        if c.messageOffset >= |c.messageIn| then (bus, Error(InvalidPhase))
        else (Connected(bus, c.(messageOffset := c.messageOffset + 1)), Ok(Some(c.messageIn[c.messageOffset])))
      case _ => (bus, Error(InvalidPhase))
  }

  function AcknowledgeMessage(bus: Bus, attention: bool): Bus {
    if bus.connection.None? || bus.connection.value.phase != MessageIn then bus
    else
      var c := bus.connection.value;
      if attention then Connected(bus, c.(messageIn := [], messageOffset := 0, phase := MessageOut))
      else if c.messageOffset != |c.messageIn| then bus
      else if c.messageIn == [0] then bus.(connection := None)
      else Connected(bus, c.(messageIn := [], messageOffset := 0, phase := c.returnPhase))
  }

  function AssertAttention(bus: Bus): Bus {
    if bus.connection.None? || bus.connection.value.phase == MessageIn || bus.connection.value.phase == MessageOut then bus
    else
      var c := bus.connection.value;
      Connected(bus, c.(returnPhase := c.phase, phase := MessageOut, messageOut := []))
  }
}
