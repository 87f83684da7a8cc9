/**
 A Select-And-Transfer command that reads data through the host's one-byte buffer, in
 as many transfer-count windows as the host likes: `WindowsGiveTheReply` says which
 bytes come, in what state controller and bus are left, and hence that the windows do
 not matter.
 */
module WdWindows {
  import opened Options
  import opened Words
  import opened ScsiTargets
  import opened ScsiBus
  import opened ScsiConnection
  import opened ScsiRun
  import opened ScsiTransfer
  import opened Wd33c93b

  // The bus under the pump

  /** A connection in Data In with bytes to come. */
  predicate InData(bus: Bus) {
    Sound(bus) && PhaseOf(bus) == Some(DataIn) && Incoming(bus)
  }

  /** The bus when a target has given all its data and status and has gone. */
  function Released(bus: Bus): Bus
    requires Incoming(bus)
  {
    AllTaken(bus).0.(connection := None)
  }

  lemma NextByte(bus: Bus)
    requires InData(bus)
    ensures var (after, got) := ReadInformation(bus, true);
            && ToCome(bus) != [] && got == Ok(Some(ToCome(bus)[0]))
            && (if |ToCome(bus)| == 1 then
                  after == SetStatus(AllTaken(bus).0, AllTaken(bus).1) && AllTaken(bus).0.connection == bus.connection
                else
                  InData(after) && ToCome(after) == ToCome(bus)[1..] && AllTaken(after) == AllTaken(bus)
                  && after.connection == bus.connection)
  {
    OnePull(bus, Pull(1, true));
    InKeeps(bus, 1, true, true);
    TakenKeepsConnection(bus);
    hide TransferIn, Sound, Incoming, ToCome, AllTaken;
  }

  lemma TakenKeepsConnection(bus: Bus)
    requires Incoming(bus)
    ensures AllTaken(bus).0.connection == bus.connection
  {
  }

  /** Status and completion message release the bus. */
  lemma StatusReleases(wd: Wd, bus: Bus)
    requires Sound(bus) && PhaseOf(bus) == Some(StatusPhase)
    ensures TakeStatus(wd, bus, true)
         == Served(FinishSelectAndTransfer(wd, StatusByte(bus.connection.value.status)), bus.(connection := None), Ok(Idle))
    ensures TakeStatus(wd, bus, true).wd.p.inputByte.None?
  {
    StatusRead(bus);
    hide Sound;
  }

  // The host

  /** The host takes staged bytes until the pump has none. */
  function Drain(wd: Wd, bus: Bus, clockHz: nat): (Wd, Bus, seq<Byte>)
    requires Sound(bus) && clockHz > 0
    decreases wd.p.pioRemaining
  {
    hide Sound, PumpBus;
    if wd.p.inputByte.None? then (wd, bus, [])
    else
      var (taken, byte) := ReadDataRegister(wd);
      var asked := taken.(pending := None);
      var served := ServeRequest(asked, bus, taken.pending.value, true, clockHz);
      PumpAdvances(asked.(commandInProgress := false), bus);
      if served.wd.p.inputByte.None? then (served.wd, served.bus, [byte])
      else
        var (end, after, bytes) := Drain(served.wd, served.bus, clockHz);
        (end, after, [byte] + bytes)
  }

  lemma PumpAdvances(wd: Wd, bus: Bus)
    requires Sound(bus) && wd.p.inputByte.None?
    ensures var served := PumpBus(wd, bus, true);
            && Sound(served.bus)
            && (served.wd.p.inputByte.Some? ==> served.wd.p.pioRemaining < wd.p.pioRemaining)
    decreases if PhaseOf(bus) == Some(DataIn) then 1 else 0
  {
    hide Sound, ReadInformation, TakeStatus, PhaseOver, AbortTransfer, Staged, OutputReady, PhaseOf, Input,
      TargetsSound, TransactionSound, ConnectionSound, FinishSelectAndTransfer;
    StatusKeepsInput(wd, bus);
    PhaseOverKeepsInput(wd, bus);
    if !wd.p.aborting {
      if wd.p.combined && PhaseOf(bus) == Some(StatusPhase) {
        StatusReleases(wd, bus);
        ReleaseSound(bus);
      } else if wd.p.pioPhase.Some? && wd.p.pioRemaining > 0 && PhaseOf(bus) == wd.p.pioPhase {
        ReadSound(bus, true);
        var (after, got) := ReadInformation(bus, true);
        if got == Ok(None) {
          PumpAdvances(wd, after);
        } else if got.Ok? {
          ByteStaged(wd, got.value.value);
        }
      }
    }
  }

  lemma ByteStaged(wd: Wd, byte: Byte)
    requires wd.p.pioRemaining > 0
    ensures Staged(wd, byte).p.pioRemaining == wd.p.pioRemaining - 1
  {
  }

  lemma StatusKeepsInput(wd: Wd, bus: Bus)
    requires wd.p.inputByte.None?
    ensures AbortTransfer(wd, bus).p.inputByte.None? && OutputReady(wd).p.inputByte.None?
  {
  }

  lemma PhaseOverKeepsInput(wd: Wd, bus: Bus)
    requires wd.p.inputByte.None?
    ensures wd.p.pioPhase.Some? ==> PhaseOver(wd, bus, wd.p.pioPhase.value).p.inputByte.None?
  {
    if wd.p.pioPhase.Some? {
      EndKeepsInput(wd, bus, wd.p.pioPhase.value);
      hide PhaseEnd;
    }
  }

  lemma EndKeepsInput(wd: Wd, bus: Bus, phase: Phase)
    ensures PhaseEnd(wd, bus, phase).p.inputByte == wd.p.inputByte
  {
    hide RaiseStatus, Reported;
    RaiseKeepsInput(wd.(p := wd.p.(ackAsserted := true)), 0x20);
    ReportedKeepsInput(wd.(r := wd.r.(commandPhase := DATA_TRANSFER_PHASE)), bus, 0x48);
    ReportedKeepsInput(wd, bus, if wd.p.pioRemaining == 0 then 0x18 else 0x48);
  }

  lemma ReportedKeepsInput(wd: Wd, bus: Bus, kind: Byte)
    requires kind % 8 == 0 && kind < 0xf8
    ensures Reported(wd, bus, kind).p.inputByte == wd.p.inputByte
  {
    RaiseKeepsInput(wd, if PhaseOf(bus).Some? then kind + PhaseBits(PhaseOf(bus).value) else 0x85);
    hide RaiseStatus;
  }

  lemma ReleaseSound(bus: Bus)
    requires Sound(bus)
    ensures Sound(bus.(connection := None))
  {
    hide Consistent;
  }

  // One window

  /** A controller in the middle of a combined Data In command by programmed transfer, with n bytes to go. */
  predicate Streaming(wd: Wd, n: nat) {
    && wd.p.combined && !wd.p.aborting && !wd.p.singleByte && wd.r.control / 0x20 == 0
    && wd.p.pioPhase == Some(DataIn) && wd.p.pioRemaining == n && wd.r.transferCount == n
  }

  /** A window that ends before the data: the next bytes, count zero, and an unexpected-phase status. */
  predicate Paused(r: Registers, bus: Bus, n: nat, end: Wd, after: Bus, bytes: seq<Byte>)
    requires InData(bus) && n < |ToCome(bus)|
  {
    && bytes == ToCome(bus)[..n]
    && InData(after) && ToCome(after) == ToCome(bus)[n..] && AllTaken(after) == AllTaken(bus)
    && after.connection == bus.connection
    && end.r == r.(transferCount := 0, commandPhase := DATA_TRANSFER_PHASE, scsiStatus := UNEXPECTED_DATA_IN)
    && end.p.inputByte.None? && !end.p.aborting && end.interruptPending
  }

  /** A window that covers the data: all of it, the residue, the target's status, and a free bus. */
  predicate Done(r: Registers, bus: Bus, n: nat, end: Wd, after: Bus, bytes: seq<Byte>)
    requires InData(bus) && |ToCome(bus)| <= n < 0x100_0000
  {
    && bytes == ToCome(bus)
    && after == Released(bus)
    && end.r == r.(transferCount := n - |ToCome(bus)|, targetLun := StatusByte(AllTaken(bus).1),
                   commandPhase := COMPLETED_PHASE, scsiStatus := COMPLETED)
    && end.p == NO_PROGRESS && end.interruptPending && end.pending.None?
  }

  predicate WindowResult(r: Registers, bus: Bus, n: nat, end: Wd, after: Bus, bytes: seq<Byte>)
    requires InData(bus) && n < 0x100_0000
  {
    if n < |ToCome(bus)| then Paused(r, bus, n, end, after, bytes) else Done(r, bus, n, end, after, bytes)
  }

  /** The first pump of a window with count left stages the next byte. */
  lemma PumpStages(wd: Wd, bus: Bus, n: nat)
    requires Streaming(wd, n) && n > 0 && wd.p.inputByte.None? && InData(bus)
    ensures var served := PumpBus(wd, bus, true);
            && served == Served(Staged(wd, ToCome(bus)[0]), ReadInformation(bus, true).0, Ok(Idle))
            && Streaming(served.wd, n - 1) && served.wd.p.inputByte == Some(ToCome(bus)[0])
            && served.wd.r == wd.r.(transferCount := n - 1)
  {
    NextByte(bus);
    hide Sound, ReadInformation, ToCome, Incoming, AllTaken, TakeStatus, PhaseOver;
  }

  lemma PumpPauses(wd: Wd, bus: Bus)
    requires Streaming(wd, 0) && wd.p.inputByte.None? && InData(bus)
    ensures var served := PumpBus(wd, bus, true);
            && served.work == Ok(Idle) && served.bus == bus && served.wd.p.inputByte.None?
            && Paused(wd.r, bus, 0, served.wd, bus, [])
  {
    NextByte(bus);
    hide Sound, ReadInformation, ToCome, Incoming, AllTaken, TakeStatus;
    assert ToCome(bus)[..0] == [] && ToCome(bus)[0..] == ToCome(bus);
  }

  lemma PumpFinishes(wd: Wd, bus: Bus, n: nat)
    requires Streaming(wd, n) && wd.p.inputByte.None? && Sound(bus) && PhaseOf(bus) == Some(StatusPhase)
    ensures var served := PumpBus(wd, bus, true);
            && served.bus == bus.(connection := None) && served.wd.p == NO_PROGRESS
            && served.wd.r == wd.r.(targetLun := StatusByte(bus.connection.value.status),
                                    commandPhase := COMPLETED_PHASE, scsiStatus := COMPLETED)
            && served.wd.interruptPending && served.wd.pending.None?
  {
    StatusReleases(wd, bus);
    hide Sound, TakeStatus;
  }

  /** A byte and then a window one shorter are the window. */
  lemma OneMoreByte(r: Registers, bus: Bus, next: Bus, n: nat, end: Wd, after: Bus, rest: seq<Byte>)
    requires InData(bus) && InData(next) && 0 < n < 0x100_0000 && |ToCome(bus)| > 1
    requires ToCome(next) == ToCome(bus)[1..] && AllTaken(next) == AllTaken(bus) && next.connection == bus.connection
    requires WindowResult(r, next, n - 1, end, after, rest)
    ensures WindowResult(r, bus, n, end, after, [ToCome(bus)[0]] + rest)
  {
    hide Sound, ToCome, AllTaken, Incoming;
    var data := ToCome(bus);
    assert data == [data[0]] + data[1..];
    if n < |data| {
      assert data[..n] == [data[0]] + data[1..][..n - 1];
      assert data[n..] == data[1..][n - 1..];
    }
  }

  /** The last byte ends the command whatever is left of the count. */
  lemma LastByte(r: Registers, bus: Bus, n: nat, end: Wd, after: Bus)
    requires InData(bus) && 0 < n < 0x100_0000 && |ToCome(bus)| == 1
    requires AllTaken(bus).0.connection == bus.connection
    requires after == SetStatus(AllTaken(bus).0, AllTaken(bus).1).(connection := None)
    requires end.p == NO_PROGRESS && end.interruptPending && end.pending.None?
    requires end.r == r.(transferCount := n - 1, targetLun := StatusByte(AllTaken(bus).1),
                         commandPhase := COMPLETED_PHASE, scsiStatus := COMPLETED)
    ensures WindowResult(r, bus, n, end, after, [ToCome(bus)[0]])
  {
    hide Sound, ToCome, AllTaken, Incoming;
    assert ToCome(bus) == [ToCome(bus)[0]];
  }

  /** What the host's read of the staged byte leaves. */
  function Taken(wd: Wd): Wd {
    wd.(p := wd.p.(inputByte := None), pending := None, commandInProgress := false)
  }

  /** The host's read and the pump after it, as one step. */
  lemma DrainStep(wd: Wd, bus: Bus, clockHz: nat)
    requires Sound(bus) && clockHz > 0 && wd.p.inputByte.Some?
    ensures Sound(PumpBus(Taken(wd), bus, true).bus)
    ensures var served := PumpBus(Taken(wd), bus, true);
            var (end, after, rest) := Drain(served.wd, served.bus, clockHz);
            Drain(wd, bus, clockHz) == (end, after, [wd.p.inputByte.value] + rest)
  {
    PumpAdvances(Taken(wd), bus);
    hide Sound, PumpBus;
    var (taken, byte) := ReadDataRegister(wd);
    var asked := taken.(pending := None);
    assert asked.(commandInProgress := false) == Taken(wd);
    assert ServeRequest(asked, bus, Pump, true, clockHz) == PumpBus(Taken(wd), bus, true);
    assert [byte] + [] == [byte];
  }

  /** A whole window, from the pump that starts it. */
  lemma {:induction false} Streamed(wd: Wd, bus: Bus, n: nat, clockHz: nat)
    requires Streaming(wd, n) && wd.p.inputByte.None? && InData(bus) && n < 0x100_0000 && clockHz > 0
    ensures Sound(PumpBus(wd, bus, true).bus)
    ensures var served := PumpBus(wd, bus, true);
            var (end, after, bytes) := Drain(served.wd, served.bus, clockHz);
            WindowResult(wd.r, bus, n, end, after, bytes)
    decreases n
  {
    PumpAdvances(wd, bus);
    if n == 0 {
      PumpPauses(wd, bus);
      hide Sound, PumpBus, Paused, ToCome, AllTaken, Incoming;
    } else {
      NextByte(bus);
      hide Sound, PumpBus, WindowResult, AllTaken, Incoming;
      if |ToCome(bus)| == 1 {
        StreamedLast(wd, bus, n, clockHz);
      } else {
        StreamedRest(wd, bus, n, clockHz);
      }
    }
  }

  /** The window from the last byte on. */
  lemma StreamedLast(wd: Wd, bus: Bus, n: nat, clockHz: nat)
    requires Streaming(wd, n) && wd.p.inputByte.None? && InData(bus) && 0 < n < 0x100_0000 && clockHz > 0
    requires |ToCome(bus)| == 1
    ensures var served := PumpBus(wd, bus, true);
            && Sound(served.bus) && served.wd.p.inputByte.Some?
            && (var (end, after, bytes) := Drain(served.wd, served.bus, clockHz);
                WindowResult(wd.r, bus, n, end, after, bytes))
  {
    PumpAdvances(wd, bus);
    PumpStages(wd, bus, n);
    NextByte(bus);
    var served := PumpBus(wd, bus, true);
    var next := Taken(served.wd);
    hide Sound, PumpBus, ToCome, AllTaken, Incoming, InData;
    DrainStep(served.wd, served.bus, clockHz);
    PumpFinishes(next, served.bus, n - 1);
    var last := PumpBus(next, served.bus, true);
    LastByte(wd.r, bus, n, last.wd, last.bus);
  }

  /** The window from a byte that is not the last one on. */
  lemma {:induction false} StreamedRest(wd: Wd, bus: Bus, n: nat, clockHz: nat)
    requires Streaming(wd, n) && wd.p.inputByte.None? && InData(bus) && 0 < n < 0x100_0000 && clockHz > 0
    requires |ToCome(bus)| > 1
    ensures var served := PumpBus(wd, bus, true);
            && Sound(served.bus) && served.wd.p.inputByte.Some?
            && (var (end, after, bytes) := Drain(served.wd, served.bus, clockHz);
                WindowResult(wd.r, bus, n, end, after, bytes))
    decreases n, 0
  {
    PumpAdvances(wd, bus);
    PumpStages(wd, bus, n);
    NextByte(bus);
    var served := PumpBus(wd, bus, true);
    var next := Taken(served.wd);
    hide Sound, PumpBus, ToCome, AllTaken, Incoming, InData, WindowResult;
    DrainStep(served.wd, served.bus, clockHz);
    Streamed(next, served.bus, n - 1, clockHz);
    var after := PumpBus(next, served.bus, true);
    var (end, b, rest) := Drain(after.wd, after.bus, clockHz);
    OneMoreByte(wd.r, bus, served.bus, n, end, b, rest);
  }

  // Windows

  /** No byte is staged, no transfer is being aborted, and data moves by programmed transfer. */
  predicate Quiet(wd: Wd) {
    wd.p.inputByte.None? && !wd.p.aborting && wd.r.control / 0x20 == 0
  }

  /** The host programs a count and issues the command. */
  function Issued(wd: Wd, attention: bool, n: TransferCount): Wd {
    ExecuteCommand(wd.(r := wd.r.(transferCount := n)), if attention then 8 else 9)
  }

  lemma PumpedSound(wd: Wd, bus: Bus)
    requires Sound(bus) && wd.p.inputByte.None?
    ensures Sound(Pumped(wd, bus, true).bus)
  {
    hide Sound, PumpBus;
    PumpAdvances(wd.(p := wd.p.(pioPhase := PhaseOf(bus), pioRemaining := wd.r.transferCount, singleByte := false)), bus);
  }

  lemma StartSound(wd: Wd, bus: Bus, lun: nat, cdb: seq<Byte>)
    requires Sound(bus) && wd.p.inputByte.None? && lun < 8
    ensures Sound(StartCombined(wd, bus, lun, cdb, true).bus)
  {
    IdentifySound(bus, wd.p.attention, lun, true);
    hide Sound, Identify, SendCommand, Pumped;
    var (identifiedBus, identified) := Identify(bus, wd.p.attention, lun, true);
    if identified.Ok? {
      PumpedSound(AfterSelection(wd), SendCommand(identifiedBus, cdb, true).0);
    }
  }

  lemma CombinedSound(wd: Wd, bus: Bus, targetId: nat, lun: nat, cdb: seq<Byte>, clockHz: nat)
    requires Sound(bus) && wd.p.inputByte.None? && lun < 8 && clockHz > 0
    ensures Sound(CombinedRequest(wd, bus, targetId, lun, cdb, true, clockHz).bus)
  {
    hide Sound, Select, StartCombined, Pumped, WaitForSelection, RaiseStatus, PhaseOf, TargetsSound,
      TransactionSound, ConnectionSound, Busy, Present;
    PumpedSound(wd, bus);
    RaiseKeepsInput(wd, INVALID_STATE);
    if PhaseOf(bus).None? {
      var (b1, selected) := Select(bus, targetId, wd.p.attention);
      SelectSound(bus, targetId, wd.p.attention);
      WaitingKeepsInput(wd, b1, clockHz);
      if selected == Ok(true) {
        StartSound(wd, b1, lun, cdb);
      }
    }
  }

  lemma RaiseKeepsInput(wd: Wd, status: Byte)
    ensures RaiseStatus(wd, status).p.inputByte == wd.p.inputByte
  {
  }

  lemma WaitingKeepsInput(wd: Wd, bus: Bus, clockHz: nat)
    requires clockHz > 0
    ensures WaitForSelection(wd, bus, clockHz).wd.p.inputByte == wd.p.inputByte
    ensures WaitForSelection(wd, bus, clockHz).bus == bus
  {
  }

  /** The scheduler serves the command, and the host drains the data. */
  function RunWindow(wd: Wd, bus: Bus, attention: bool, n: TransferCount, clockHz: nat): (Wd, Bus, seq<Byte>)
    requires Sound(bus) && clockHz > 0 && Quiet(wd)
  {
    hide Sound;
    var issued := Issued(wd, attention, n);
    var asked := issued.(pending := None);
    var served := ServeRequest(asked, bus, issued.pending.value, true, clockHz);
    CombinedSound(asked.(commandInProgress := false), bus, issued.r.destinationId % 8, issued.r.targetLun % 8,
                  issued.r.cdb[..RequestedLength(issued.r.cdb[0])], clockHz);
    Drain(served.wd, served.bus, clockHz)
  }

  // The first window

  /** The unit that a command reaches: IDENTIFY's, or the command's own field, or unit zero. */
  function UnitReached(attention: bool, lun: nat, cdb: seq<Byte>): nat
    requires |cdb| >= 2
  {
    if attention then lun else if cdb[0] / 0x20 == 0 then cdb[1] / 0x20 else 0
  }

  /** The connection just before a command's first byte. */
  function Ready(targetId: nat, attention: bool, lun: nat): Connection {
    Connection(targetId, if attention then lun else 0, attention, Command, Command, [], [], [], 0, Good)
  }

  lemma Identified(bus: Bus, targetId: nat, attention: bool, lun: nat)
    requires Sound(bus) && !Busy(bus) && Present(bus, targetId) && lun < 8
    ensures Sound(Select(bus, targetId, attention).0) && Select(bus, targetId, attention).1 == Ok(true)
    ensures var selected := Select(bus, targetId, attention).0;
            Identify(selected, attention, lun, true) == (Connected(bus, Ready(targetId, attention, lun)), Ok(true))
    ensures Sound(Connected(bus, Ready(targetId, attention, lun)))
  {
    SelectSound(bus, targetId, attention);
    ConnectionReplaced(bus, Ready(targetId, attention, lun));
    hide Sound;
    if attention {
      var message: Byte := 0x80 + lun;
      assert Parse([message], Messages(0, false, [])) == Parse([], Messages(lun, true, []));
      assert [] + [message] == [message] && message != 6;
    }
  }

  /** A byte of a command is kept, and the last one has it executed. */
  lemma ByteHeard(bus: Bus, c: Connection, byte: Byte)
    requires Sound(Connected(bus, c)) && c.phase == Command
    requires |c.cdb| < CdbLength((c.cdb + [byte])[0])
    ensures var heard := c.(cdb := c.cdb + [byte]);
            && Sound(Connected(bus, heard))
            && WriteInformation(Connected(bus, c), byte, false, true)
               == (if |heard.cdb| == CdbLength(heard.cdb[0]) then ExecuteConnected(Connected(bus, heard))
                   else (Connected(bus, heard), Ok(true)))
  {
    ConnectionReplaced(Connected(bus, c), c.(cdb := c.cdb + [byte]));
    hide Sound, ExecuteConnected;
  }

  /** The bytes of a command collect until it is whole, and then it is executed. */
  lemma {:induction false} CommandCollects(bus: Bus, c: Connection, cdb: seq<Byte>, rest: seq<Byte>)
    requires Sound(Connected(bus, c)) && c.phase == Command && c.cdb + rest == cdb && rest != []
    requires |cdb| == CdbLength(cdb[0])
    ensures Sound(Connected(bus, c.(cdb := cdb)))
    ensures var executed := ExecuteConnected(Connected(bus, c.(cdb := cdb)));
            executed.1 == Ok(true) ==> SendCommand(Connected(bus, c), rest, true) == executed
    decreases |rest|
  {
    var heard := c.(cdb := c.cdb + [rest[0]]);
    assert heard.cdb[0] == cdb[0];
    ByteHeard(bus, c, rest[0]);
    hide Sound, ExecuteConnected, WriteInformation, CdbLength;
    if |rest| == 1 {
      assert heard.cdb == cdb && rest[1..] == [];
    } else {
      assert heard.cdb + rest[1..] == cdb;
      CommandCollects(bus, heard, cdb, rest[1..]);
    }
  }

  /** A command that the controller takes to be shorter than the target does is never executed. */
  lemma {:induction false} ShortCommandWaits(bus: Bus, c: Connection, cdb: seq<Byte>, rest: seq<Byte>)
    requires Sound(Connected(bus, c)) && c.phase == Command && c.cdb + rest == cdb && cdb != []
    requires |cdb| < CdbLength(cdb[0])
    ensures SendCommand(Connected(bus, c), rest, true) == (Connected(bus, c.(cdb := cdb)), Ok(true))
    decreases |rest|
  {
    if rest == [] {
      assert c.cdb == cdb;
      hide Sound;
    } else {
      var heard := c.(cdb := c.cdb + [rest[0]]);
      assert heard.cdb[0] == cdb[0];
      ByteHeard(bus, c, rest[0]);
      hide Sound, ExecuteConnected, WriteInformation, CdbLength;
      assert heard.cdb + rest[1..] == cdb;
      ShortCommandWaits(bus, heard, cdb, rest[1..]);
    }
  }

  /** So the group that the two tables disagree on stalls: the target still waits for command bytes. */
  lemma SixteenByteGroupStalls(bus: Bus, c: Connection, r: Registers)
    requires Sound(Connected(bus, c)) && c.phase == Command && c.cdb == [] && r.cdb[0] / 0x20 == 4
    ensures SendCommand(Connected(bus, c), CommandOf(r), true) == (Connected(bus, c.(cdb := CommandOf(r))), Ok(true))
  {
    assert CommandOf(r)[0] == r.cdb[0];
    assert [] + CommandOf(r) == CommandOf(r);
    ShortCommandWaits(bus, c, CommandOf(r), CommandOf(r));
    hide Sound;
  }

  /** A command does not look at the connection. */
  lemma StartIgnoresConnection(bus: Bus, c: Connection, targetId: nat, lun: nat, cdb: seq<Byte>)
    requires TargetsSound(bus)
    ensures var (started, result) := StartCommand(bus, targetId, lun, cdb);
            StartCommand(Connected(bus, c), targetId, lun, cdb) == (started.(connection := Some(c)), result)
  {
    hide Execute, TargetSound;
  }

  /** A command that starts data towards the initiator has bytes to come. */
  lemma StartsIncoming(bus: Bus, targetId: nat, lun: nat, cdb: seq<Byte>)
    requires Sound(bus) && StartCommand(bus, targetId, lun, cdb).1.Ok? && StartCommand(bus, targetId, lun, cdb).1.value.StartedIn?
    ensures Incoming(StartCommand(bus, targetId, lun, cdb).0) && Present(bus, targetId)
  {
    CommandKeeps(bus, targetId, lun, cdb);
    var slot := SlotOf(targetId, lun).value;
    assert targetId * 8 <= slot < targetId * 8 + 8 && bus.targets[slot].Some?;
    hide Execute, Consistent, ConnectionSound, TransferSound;
  }

  /** A connection to a bus with bytes to come does not change what is to come. */
  lemma ConnectionAside(bus: Bus, c: Connection)
    requires Incoming(bus)
    ensures Incoming(Connected(bus, c)) && ToCome(Connected(bus, c)) == ToCome(bus)
    ensures AllTaken(Connected(bus, c)).1 == AllTaken(bus).1 && Released(Connected(bus, c)) == Released(bus)
  {
    hide CompleteStorage;
  }

  /** Executing a collected command that starts data brings the connection to Data In. */
  lemma ExecutionStarts(bus: Bus, c: Connection) returns (started: Bus, data: Connection)
    requires Sound(bus) && Sound(Connected(bus, c)) && |c.cdb| >= 6
    requires StartCommand(bus, c.targetId, UnitOf(c), c.cdb).1.Ok?
    requires StartCommand(bus, c.targetId, UnitOf(c), c.cdb).1.value.StartedIn?
    ensures started == StartCommand(bus, c.targetId, UnitOf(c), c.cdb).0 && data.targetId == c.targetId
    ensures Incoming(started) && InData(Connected(started, data))
    ensures ExecuteConnected(Connected(bus, c)) == (Connected(started, data), Ok(true))
  {
    started := StartCommand(bus, c.targetId, UnitOf(c), c.cdb).0;
    data := c.(lun := UnitOf(c), phase := DataIn);
    StartsIncoming(bus, c.targetId, UnitOf(c), c.cdb);
    ConnectedCommandKeeps(Connected(bus, c));
    StartIgnoresConnection(bus, c.(lun := UnitOf(c)), c.targetId, UnitOf(c), c.cdb);
    ConnectionAside(started, data);
    hide StartCommand, Sound, Incoming, ConnectionFits;
  }

  /** The whole command brings the connection to Data In, with what the target has to give. */
  lemma CommandStarts(bus: Bus, targetId: nat, attention: bool, lun: nat, cdb: seq<Byte>) returns (started: Bus, data: Connection)
    requires Sound(bus) && !Busy(bus) && lun < 8 && cdb != [] && |cdb| == CdbLength(cdb[0]) && Present(bus, targetId)
    requires StartCommand(bus, targetId, UnitReached(attention, lun, cdb), cdb).1.Ok?
    requires StartCommand(bus, targetId, UnitReached(attention, lun, cdb), cdb).1.value.StartedIn?
    ensures started == StartCommand(bus, targetId, UnitReached(attention, lun, cdb), cdb).0
    ensures data.targetId == targetId && Incoming(started) && InData(Connected(started, data))
    ensures Sound(Connected(bus, Ready(targetId, attention, lun)))
    ensures SendCommand(Connected(bus, Ready(targetId, attention, lun)), cdb, true) == (Connected(started, data), Ok(true))
  {
    hide StartCommand, Sound, SendCommand, Incoming, CdbLength, ExecuteConnected, Present, Busy;
    var c := Ready(targetId, attention, lun);
    Identified(bus, targetId, attention, lun);
    assert [] + cdb == cdb;
    CommandCollects(bus, c, cdb, cdb);
    assert UnitOf(c.(cdb := cdb)) == UnitReached(attention, lun, cdb);
    started, data := ExecutionStarts(bus, c.(cdb := cdb));
  }

  /** The command in the controller's registers, as long as the controller takes it to be. */
  function CommandOf(r: Registers): seq<Byte> {
    r.cdb[..RequestedLength(r.cdb[0])]
  }

  /** What the bus makes of the command in the registers. */
  function Reply(wd: Wd, bus: Bus, attention: bool): (Bus, Result<Start, BusError>)
    requires Sound(bus)
  {
    var cdb := CommandOf(wd.r);
    StartCommand(bus, wd.r.destinationId % 8, UnitReached(attention, wd.r.targetLun % 8, cdb), cdb)
  }

  /** Selection, identification and command, up to the pump. */
  lemma FirstServed(wd: Wd, bus: Bus, cdb: seq<Byte>, started: Bus, data: Connection, lun: nat, clockHz: nat)
    requires Sound(bus) && !Busy(bus) && clockHz > 0 && lun < 8
    requires Present(bus, data.targetId) && Sound(Connected(bus, Ready(data.targetId, wd.p.attention, lun)))
    requires Sound(Connected(started, data))
    requires SendCommand(Connected(bus, Ready(data.targetId, wd.p.attention, lun)), cdb, true)
          == (Connected(started, data), Ok(true))
    ensures CombinedRequest(wd, bus, data.targetId, lun, cdb, true, clockHz)
         == Pumped(AfterSelection(wd), Connected(started, data), true)
  {
    Identified(bus, data.targetId, wd.p.attention, lun);
    hide Sound, PumpBus, Select, Identify, SendCommand, Present, AfterSelection, Pumped;
  }

  /** A window whose command brings the pump to a bus with bytes to come. */
  lemma WindowStreams(wd: Wd, bus: Bus, attention: bool, n: TransferCount, clockHz: nat, ready: Wd, b1: Bus)
    requires Quiet(wd) && Sound(bus) && clockHz > 0 && InData(b1)
    requires var issued := Issued(wd, attention, n).(pending := None, commandInProgress := false);
             && (ready == issued || ready == AfterSelection(issued))
             && CombinedRequest(issued, bus, wd.r.destinationId % 8, wd.r.targetLun % 8, CommandOf(wd.r), true, clockHz)
                == Pumped(ready, b1, true)
    ensures var (end, after, bytes) := RunWindow(wd, bus, attention, n, clockHz);
            WindowResult(wd.r.(command := if attention then 8 else 9), b1, n, end, after, bytes)
  {
    hide Sound, PumpBus, CombinedRequest;
    assert PhaseOf(b1) == Some(DataIn) && Sound(b1);
    hide InData;
    var issued := Issued(wd, attention, n);
    var start := ready.(p := ready.p.(pioPhase := PhaseOf(b1), pioRemaining := n, singleByte := false));
    Streamed(start, b1, n, clockHz);
    var served := PumpBus(start, b1, true);
    assert ServeRequest(issued.(pending := None), bus, issued.pending.value, true, clockHz) == served;
    var (end, after, bytes) := Drain(served.wd, served.bus, clockHz);
    assert RunWindow(wd, bus, attention, n, clockHz) == (end, after, bytes);
    RegistersAside(start.r, wd.r.(command := if attention then 8 else 9), b1, n, end, after, bytes);
  }

  /** A window's result does not depend on the registers it overwrites. */
  lemma RegistersAside(a: Registers, b: Registers, bus: Bus, n: nat, end: Wd, after: Bus, bytes: seq<Byte>)
    requires InData(bus) && n < 0x100_0000 && WindowResult(a, bus, n, end, after, bytes)
    requires a.(transferCount := 0, commandPhase := 0) == b.(transferCount := 0, commandPhase := 0)
    ensures WindowResult(b, bus, n, end, after, bytes)
  {
    hide Sound, ToCome, AllTaken, Incoming;
  }

  /** A window that starts a command. */
  lemma FirstWindow(wd: Wd, bus: Bus, attention: bool, n: TransferCount, clockHz: nat) returns (started: Bus, data: Connection)
    requires Quiet(wd) && Sound(bus) && !Busy(bus) && clockHz > 0 && wd.r.cdb[0] / 0x20 != 4
    requires Reply(wd, bus, attention).1.Ok? && Reply(wd, bus, attention).1.value.StartedIn?
    ensures started == Reply(wd, bus, attention).0 && data.targetId == wd.r.destinationId % 8
    ensures Incoming(started) && InData(Connected(started, data))
    ensures var (end, after, bytes) := RunWindow(wd, bus, attention, n, clockHz);
            WindowResult(wd.r.(command := if attention then 8 else 9), Connected(started, data), n, end, after, bytes)
  {
    var cdb := CommandOf(wd.r);
    LengthsAgree(wd.r.cdb[0]);
    assert cdb[0] == wd.r.cdb[0];
    var id, lun := wd.r.destinationId % 8, wd.r.targetLun % 8;
    var issued := Issued(wd, attention, n).(pending := None, commandInProgress := false);
    assert issued.p.attention == attention;
    hide Sound, StartCommand, Incoming, CdbLength, Present, RunWindow, WindowResult, Busy, Issued, RequestedLength;
    StartsIncoming(bus, id, UnitReached(attention, lun, cdb), cdb);
    started, data := CommandStarts(bus, id, attention, lun, cdb);
    FirstServed(issued, bus, cdb, started, data, lun, clockHz);
    WindowStreams(wd, bus, attention, n, clockHz, AfterSelection(issued), Connected(started, data));
  }

  /** A window that resumes a paused command. */
  lemma ResumedWindow(wd: Wd, bus: Bus, attention: bool, n: TransferCount, clockHz: nat)
    requires Quiet(wd) && InData(bus) && clockHz > 0
    requires wd.r.commandPhase == DATA_TRANSFER_PHASE && bus.connection.value.targetId == wd.r.destinationId % 8
    ensures var (end, after, bytes) := RunWindow(wd, bus, attention, n, clockHz);
            WindowResult(wd.r.(command := if attention then 8 else 9), bus, n, end, after, bytes)
  {
    hide Sound, PumpBus, Incoming, RunWindow, WindowResult, Pumped;
    var issued := Issued(wd, attention, n).(pending := None, commandInProgress := false);
    WindowStreams(wd, bus, attention, n, clockHz, issued, bus);
  }

  // Any number of windows

  /** Windows one after the other, as long as the target has more data. */
  function RunWindows(wd: Wd, bus: Bus, attention: bool, counts: seq<TransferCount>, clockHz: nat): (Wd, Bus, seq<Byte>)
    requires Sound(bus) && clockHz > 0 && Quiet(wd)
    decreases |counts|
  {
    if counts == [] then (wd, bus, [])
    else
      var (end, after, bytes) := RunWindow(wd, bus, attention, counts[0], clockHz);
      if end.r.scsiStatus != UNEXPECTED_DATA_IN || !Quiet(end) || !Sound(after) then (end, after, bytes)
      else
        var (last, freed, rest) := RunWindows(end, after, attention, counts[1..], clockHz);
        (last, freed, bytes + rest)
  }

  function Total(counts: seq<TransferCount>): nat {
    if counts == [] then 0 else counts[0] + Total(counts[1..])
  }

  /** What is left of the count of the window that ends the data. */
  function Residue(counts: seq<TransferCount>, length: nat): nat
    requires Total(counts) >= length
    decreases |counts|
  {
    if counts == [] then 0
    else if counts[0] >= length then counts[0] - length
    else Residue(counts[1..], length - counts[0])
  }

  /** The bytes come in order; when they are all there, the status, the residue and a free bus. */
  predicate Delivered(bus: Bus, counts: seq<TransferCount>, end: Wd, after: Bus, bytes: seq<Byte>)
    requires Incoming(bus)
  {
    if Total(counts) < |ToCome(bus)| then
      bytes == ToCome(bus)[..Total(counts)] && PhaseOf(after) == Some(DataIn)
    else
      && bytes == ToCome(bus) && after == Released(bus)
      && end.r.scsiStatus == COMPLETED && end.r.targetLun == StatusByte(AllTaken(bus).1)
      && end.r.transferCount == Residue(counts, |ToCome(bus)|) && end.p == NO_PROGRESS
  }

  /** A paused window and what the windows after it deliver. */
  lemma WindowThenRest(r: Registers, bus: Bus, counts: seq<TransferCount>, mid: Wd, next: Bus, bytes: seq<Byte>,
                       end: Wd, after: Bus, rest: seq<Byte>)
    requires InData(bus) && counts != [] && counts[0] < |ToCome(bus)|
    requires Paused(r, bus, counts[0], mid, next, bytes)
    requires Delivered(next, counts[1..], end, after, rest)
    ensures Delivered(bus, counts, end, after, bytes + rest)
  {
    hide Sound, ToCome, Incoming, AllTaken;
    var data, n := ToCome(bus), counts[0];
    var total := Total(counts[1..]);
    assert data == data[..n] + data[n..];
    if total < |data| - n {
      assert data[..n] + data[n..][..total] == data[..n + total];
    }
  }

  lemma {:induction false} ResumedWindows(wd: Wd, bus: Bus, attention: bool, counts: seq<TransferCount>, clockHz: nat)
    requires Quiet(wd) && InData(bus) && clockHz > 0
    requires wd.r.commandPhase == DATA_TRANSFER_PHASE && bus.connection.value.targetId == wd.r.destinationId % 8
    ensures var (end, after, bytes) := RunWindows(wd, bus, attention, counts, clockHz);
            Delivered(bus, counts, end, after, bytes)
    decreases |counts|
  {
    NextByte(bus);
    if counts == [] {
      assert ToCome(bus)[..0] == [];
      hide Sound, ToCome, AllTaken, Incoming;
    } else {
      ResumedWindow(wd, bus, attention, counts[0], clockHz);
      WindowsFrom(wd, bus, bus, attention, counts, clockHz);
    }
  }

  /** From the result of the first window on; `data` is the bus whose bytes the windows deliver. */
  lemma {:induction false} WindowsFrom(wd: Wd, bus: Bus, data: Bus, attention: bool, counts: seq<TransferCount>, clockHz: nat)
    requires Quiet(wd) && Sound(bus) && InData(data) && clockHz > 0 && counts != []
    requires data.connection.value.targetId == wd.r.destinationId % 8
    requires var (end, after, bytes) := RunWindow(wd, bus, attention, counts[0], clockHz);
             WindowResult(wd.r.(command := if attention then 8 else 9), data, counts[0], end, after, bytes)
    ensures var (end, after, bytes) := RunWindows(wd, bus, attention, counts, clockHz);
            Delivered(data, counts, end, after, bytes)
    decreases |counts|, 0
  {
    hide Sound, ToCome, AllTaken, Incoming, RunWindow, Released;
    var (mid, next, bytes) := RunWindow(wd, bus, attention, counts[0], clockHz);
    if counts[0] < |ToCome(data)| {
      ResumedWindows(mid, next, attention, counts[1..], clockHz);
      var (end, after, rest) := RunWindows(mid, next, attention, counts[1..], clockHz);
      WindowThenRest(wd.r.(command := if attention then 8 else 9), data, counts, mid, next, bytes, end, after, rest);
    }
  }

  /** A command whose target replies with data, outside the group of sixteen bytes, over any windows. */
  lemma WindowsGiveTheReply(wd: Wd, bus: Bus, attention: bool, counts: seq<TransferCount>, clockHz: nat)
    requires Quiet(wd) && Sound(bus) && !Busy(bus) && clockHz > 0 && wd.r.cdb[0] / 0x20 != 4
    requires Reply(wd, bus, attention).1.Ok? && Reply(wd, bus, attention).1.value.StartedIn?
    requires counts != []
    ensures Incoming(Reply(wd, bus, attention).0)
    ensures var (end, after, bytes) := RunWindows(wd, bus, attention, counts, clockHz);
            Delivered(Reply(wd, bus, attention).0, counts, end, after, bytes)
  {
    var started, data := FirstWindow(wd, bus, attention, counts[0], clockHz);
    WindowsFrom(wd, bus, Connected(started, data), attention, counts, clockHz);
    ConnectionAside(started, data);
    hide RunWindows, Reply, Incoming, ToCome, AllTaken, Released, Sound;
  }

  /** Hence windows that cover the reply give what any other windows that cover it give. */
  lemma WindowsDoNotMatter(wd: Wd, bus: Bus, attention: bool, counts: seq<TransferCount>, others: seq<TransferCount>, clockHz: nat)
    requires Quiet(wd) && Sound(bus) && !Busy(bus) && clockHz > 0 && wd.r.cdb[0] / 0x20 != 4
    requires Reply(wd, bus, attention).1.Ok? && Reply(wd, bus, attention).1.value.StartedIn?
    requires Incoming(Reply(wd, bus, attention).0)
    requires Total(counts) >= |ToCome(Reply(wd, bus, attention).0)| && Total(others) >= |ToCome(Reply(wd, bus, attention).0)|
    requires counts != [] && others != []
    ensures var (end, after, bytes) := RunWindows(wd, bus, attention, counts, clockHz);
            var (end', after', bytes') := RunWindows(wd, bus, attention, others, clockHz);
            bytes == bytes' && after == after' && end.r.targetLun == end'.r.targetLun && end.r.scsiStatus == end'.r.scsiStatus
  {
    WindowsGiveTheReply(wd, bus, attention, counts, clockHz);
    WindowsGiveTheReply(wd, bus, attention, others, clockHz);
    hide RunWindows, Reply, Incoming, ToCome, AllTaken, Released, Sound;
  }
}
