/**
 Transfer Info: one information phase at a time by programmed transfer.  `InfoIn` and
 `InfoOut` say for every phase which bytes cross, and with which status the controller
 tells whether the count ran out, the phase changed, or the target has gone.
 */
module WdStepwise {
  import opened Options
  import opened Words
  import opened ScsiTargets
  import opened ScsiBus
  import opened ScsiConnection
  import opened ScsiRun
  import opened ScsiTransfer
  import opened Wd33c93b
  import opened WdSelection
  import opened WdWindows
  import Out = WdOutWindows

  // Bytes of a phase

  /** The next bytes of a phase come without a gap. */
  predicate Flows(bus: Bus, phase: Phase, count: nat)
    requires Sound(bus)
    decreases count
  {
    hide Sound, ReadInformation;
    count > 0 ==>
      && PhaseOf(bus) == Some(phase)
      && ReadInformation(bus, true).1.Ok? && ReadInformation(bus, true).1.value.Some?
      && Sound(ReadInformation(bus, true).0)
      && Flows(ReadInformation(bus, true).0, phase, count - 1)
  }

  function BytesRead(bus: Bus, phase: Phase, count: nat): (Bus, seq<Byte>)
    requires Sound(bus) && Flows(bus, phase, count)
    decreases count
  {
    hide Sound, ReadInformation;
    if count == 0 then (bus, [])
    else
      var (after, got) := ReadInformation(bus, true);
      var (end, others) := BytesRead(after, phase, count - 1);
      (end, [got.value.value] + others)
  }

  /** The status of a Transfer Info that has ended in this phase, its count used up or not. */
  function InfoStatus(phase: Phase, done: bool, after: Bus): Byte {
    if phase == MessageIn && done then 0x20
    else if PhaseOf(after).None? then 0x85
    else (if done then 0x18 else 0x48) + PhaseBits(PhaseOf(after).value)
  }

  /** A Transfer Info in the middle of a phase, with so many bytes to go. */
  predicate Moving(wd: Wd, phase: Phase, left: nat) {
    && !wd.p.combined && !wd.p.aborting && wd.r.control / 0x20 == 0 && wd.p.inputByte.None?
    && wd.p.pioPhase == Some(phase) && wd.p.pioRemaining == left
    && (if wd.p.singleByte then left <= 1 && (left == 0 ==> wd.r.transferCount == 0) else wd.r.transferCount == left)
  }

  /** It has ended with `left` bytes to go: the count is what is left, and the status tells why. */
  predicate Ended(r: Registers, single: bool, end: Wd, phase: Phase, left: nat, after: Bus)
    requires left < 0x100_0000
  {
    && end.r == r.(transferCount := if single && left == 1 then r.transferCount else left,
                   scsiStatus := InfoStatus(phase, left == 0, after))
    && end.interruptPending && !end.p.busy && !end.p.outputReady && end.p.inputByte.None? && end.p.pioPhase.None?
    && !end.commandInProgress && !end.p.combined && !end.p.aborting && end.pending.None?
    && (phase == MessageIn && left == 0 ==> end.p.ackAsserted)
  }

  /** The pump at the end of a phase. */
  lemma PumpEnds(wd: Wd, bus: Bus, phase: Phase, left: nat)
    requires Moving(wd, phase, left) && Sound(bus) && left < 0x100_0000 && wd.pending.None?
    requires left == 0 || PhaseOf(bus) != Some(phase)
    ensures var served := PumpBus(wd, bus, true);
            served.bus == bus && served.work == Ok(Idle) && Ended(wd.r, wd.p.singleByte, served.wd, phase, left, bus)
            && served.wd.p.attention == wd.p.attention
  {
    hide Sound, ReadInformation;
  }

  // Towards the host

  /** The pump stages the next byte. */
  lemma PumpReads(wd: Wd, bus: Bus, phase: Phase, left: nat)
    requires Moving(wd, phase, left) && Sound(bus) && left > 0 && wd.pending.None? && Input(phase)
    requires PhaseOf(bus) == Some(phase) && ReadInformation(bus, true).1.Ok? && ReadInformation(bus, true).1.value.Some?
    ensures var (after, got) := ReadInformation(bus, true);
            var served := PumpBus(wd, bus, true);
            && served == Served(Staged(wd, got.value.value), after, Ok(Idle))
            && served.wd.p.inputByte == Some(got.value.value)
            && Moving(Taken(served.wd), phase, left - 1) && Taken(served.wd).pending.None?
            && Taken(served.wd).p.attention == wd.p.attention && Taken(served.wd).p.singleByte == wd.p.singleByte
            && Taken(served.wd).r == wd.r.(transferCount := if wd.p.singleByte then 0 else left - 1)
  {
    hide Sound, ReadInformation;
  }

  /** All bytes that flow, from the pump that fetches the first to the status. */
  lemma {:induction false} Streams(wd: Wd, bus: Bus, phase: Phase, left: nat, count: nat, clockHz: nat)
    requires Moving(wd, phase, left) && Sound(bus) && count <= left < 0x100_0000 && wd.pending.None? && Input(phase)
    requires Flows(bus, phase, count) && clockHz > 0
    requires count == left || PhaseOf(BytesRead(bus, phase, count).0) != Some(phase)
    ensures Sound(PumpBus(wd, bus, true).bus)
    ensures var served := PumpBus(wd, bus, true);
            var (end, after, bytes) := Drain(served.wd, served.bus, clockHz);
            && (after, bytes) == BytesRead(bus, phase, count)
            && Ended(wd.r, wd.p.singleByte, end, phase, left - count, after)
    decreases count
  {
    PumpAdvances(wd, bus);
    if count == 0 {
      PumpEnds(wd, bus, phase, left);
      hide Sound, PumpBus, Ended;
    } else {
      PumpReads(wd, bus, phase, left);
      var served := PumpBus(wd, bus, true);
      var next := Taken(served.wd);
      hide Sound, PumpBus, ReadInformation, Ended, Moving, Taken, Staged;
      DrainStep(served.wd, served.bus, clockHz);
      Streams(next, served.bus, phase, left - 1, count - 1, clockHz);
      var after := PumpBus(next, served.bus, true);
      var (end, b, rest) := Drain(after.wd, after.bus, clockHz);
      CountAside(wd.r, next.r, wd.p.singleByte, end, phase, left, count, b);
    }
  }

  lemma CountAside(r: Registers, next: Registers, single: bool, end: Wd, phase: Phase, left: nat, count: nat, after: Bus)
    requires 0 < count <= left < 0x100_0000 && (single ==> left == 1)
    requires next == r.(transferCount := next.transferCount)
    requires Ended(next, single, end, phase, left - count, after)
    ensures Ended(r, single, end, phase, left - count, after)
  {
  }

  /** The command with a count, or for a single byte. */
  function InfoCommand(wd: Wd, count: TransferCount, single: bool): (Wd, Option<Request>) {
    Commanded(wd.(r := wd.r.(transferCount := count)), if single then 0xa0 else 0x20)
  }

  /** A single byte is asked for by its own command, and by a count of zero. */
  predicate IsSingle(count: TransferCount, single: bool) {
    single || count == 0
  }

  function Limit(count: TransferCount, single: bool): nat {
    if IsSingle(count, single) then 1 else count
  }

  /** What the command sets up before the pump. */
  lemma InfoStarts(wd: Wd, bus: Bus, phase: Phase, count: TransferCount, single: bool, clockHz: nat)
    requires Quiet(wd) && Sound(bus) && PhaseOf(bus) == Some(phase) && clockHz > 0
    ensures var (asked, request) := InfoCommand(wd, count, single);
            && request == Some(TransferInfo)
            && var moving := Going(wd, count, single, phase);
            && ServeRequest(asked, bus, TransferInfo, true, clockHz) == PumpBus(moving, bus, true)
            && Moving(moving, phase, Limit(count, single)) && moving.pending.None? && !moving.p.outputReady
            && moving.p.singleByte == IsSingle(count, single) && moving.p.attention == wd.p.attention
  {
    hide Sound, PumpBus;
  }

  /** The controller when the pump starts. */
  function Going(wd: Wd, count: TransferCount, single: bool, phase: Phase): Wd {
    var asked := InfoCommand(wd, count, single).0;
    asked.(commandInProgress := false, p := asked.p.(pioPhase := Some(phase), pioRemaining := Limit(count, single)))
  }

  /** A Transfer Info in a phase towards the host gives the bytes that flow, up to the count or the end of the phase. */
  lemma InfoIn(wd: Wd, bus: Bus, phase: Phase, count: TransferCount, single: bool, n: nat, clockHz: nat)
    requires Quiet(wd) && Sound(bus) && PhaseOf(bus) == Some(phase) && Input(phase) && clockHz > 0
    requires n <= Limit(count, single) && Flows(bus, phase, n)
    requires n == Limit(count, single) || PhaseOf(BytesRead(bus, phase, n).0) != Some(phase)
    ensures var (asked, request) := InfoCommand(wd, count, single);
            && request == Some(TransferInfo)
            && var served := ServeRequest(asked, bus, TransferInfo, true, clockHz);
            && Sound(served.bus)
            && var (end, after, bytes) := Drain(served.wd, served.bus, clockHz);
            && (after, bytes) == BytesRead(bus, phase, n)
            && Ended(wd.r.(transferCount := count, command := if single then 0xa0 else 0x20), IsSingle(count, single), end, phase,
                     Limit(count, single) - n, after)
  {
    InfoStarts(wd, bus, phase, count, single, clockHz);
    var moving := Going(wd, count, single, phase);
    assert moving.r == wd.r.(transferCount := count, command := if single then 0xa0 else 0x20);
    hide Sound, PumpBus, InfoCommand, Going, Moving, ServeRequest, Ended;
    Streams(moving, bus, phase, Limit(count, single), n, clockHz);
  }

  // Towards the target

  /** The target takes a byte; the last of the count drops attention. */
  predicate TakesByte(bus: Bus, phase: Phase, byte: Byte, last: bool)
    requires Sound(bus)
  {
    PhaseOf(bus) == Some(phase) && WriteInformation(bus, byte, last, true).1 == Ok(true)
  }

  function AfterByte(bus: Bus, byte: Byte, last: bool): (after: Bus)
    requires Sound(bus)
    ensures Sound(after) && after == WriteInformation(bus, byte, last, true).0
  {
    WriteKeeps(bus, byte, last, true);
    WriteInformation(bus, byte, last, true).0
  }

  /** The target takes these bytes one after the other in the phase, with so many left of the count. */
  predicate Takes(bus: Bus, phase: Phase, data: seq<Byte>, left: nat)
    requires Sound(bus) && |data| <= left
    decreases |data|
  {
    hide Sound, WriteInformation, TakesByte;
    data != [] ==>
      && TakesByte(bus, phase, data[0], left == 1)
      && Takes(AfterByte(bus, data[0], left == 1), phase, data[1..], left - 1)
  }

  function BytesWritten(bus: Bus, data: seq<Byte>, left: nat): Bus
    requires Sound(bus) && |data| <= left
    decreases |data|
  {
    hide Sound, WriteInformation;
    if data == [] then bus else BytesWritten(AfterByte(bus, data[0], left == 1), data[1..], left - 1)
  }

  lemma PumpOffers(wd: Wd, bus: Bus, phase: Phase, left: nat)
    requires Moving(wd, phase, left) && Sound(bus) && left > 0 && !Input(phase) && PhaseOf(bus) == Some(phase)
    ensures PumpBus(wd, bus, true) == Served(OutputReady(wd), bus, Ok(Idle))
  {
    hide Sound, ReadInformation;
  }

  /** What the controller holds once the target has taken a byte. */
  function Passed(wd: Wd, phase: Phase, left: nat): Wd {
    AfterOutput(wd.(p := wd.p.(outputReady := false), pending := None, commandInProgress := false), left == 1, true)
  }

  lemma FillStep(wd: Wd, bus: Bus, data: seq<Byte>, phase: Phase, left: nat, clockHz: nat)
    requires Moving(wd, phase, left) && left > 0 && wd.p.outputReady && Sound(bus) && clockHz > 0 && data != []
    requires WriteInformation(bus, data[0], left == 1, true).1 == Ok(true)
    ensures var after := WriteInformation(bus, data[0], left == 1, true).0;
            var next := Passed(wd, phase, left);
            && Sound(after)
            && (var served := PumpBus(next, after, true);
                Sound(served.bus) && Out.Fill(wd, bus, data, clockHz) == Out.Fill(served.wd, served.bus, data[1..], clockHz))
  {
    WriteKeeps(bus, data[0], left == 1, true);
    var next := Passed(wd, phase, left);
    Out.PumpKeepsSound(next, WriteInformation(bus, data[0], left == 1, true).0);
    hide Sound, WriteInformation, PumpBus;
    var written := WriteDataRegister(wd, data[0]);
    var asked := written.(pending := None);
    assert ServeRequest(asked, bus, written.pending.value, true, clockHz)
        == ServeOutput(asked.(commandInProgress := false), bus, data[0], true);
  }

  lemma PassedMoves(wd: Wd, phase: Phase, left: nat)
    requires Moving(wd, phase, left) && 0 < left < 0x100_0000
    ensures var next := Passed(wd, phase, left);
            && Moving(next, phase, left - 1) && !next.p.outputReady && next.pending.None?
            && next.r == wd.r.(transferCount := if wd.p.singleByte then 0 else left - 1)
            && next.p.singleByte == wd.p.singleByte
            && next.p.attention == (wd.p.attention && !(phase == MessageOut && left == 1))
  {
  }

  lemma {:induction false} Filled(wd: Wd, bus: Bus, phase: Phase, data: seq<Byte>, left: nat, clockHz: nat)
    requires Moving(wd, phase, left) && !wd.p.outputReady && Sound(bus) && |data| <= left < 0x100_0000 && wd.pending.None?
    requires !Input(phase) && Takes(bus, phase, data, left) && clockHz > 0
    requires |data| == left || PhaseOf(BytesWritten(bus, data, left)) != Some(phase)
    ensures Sound(PumpBus(wd, bus, true).bus)
    ensures var served := PumpBus(wd, bus, true);
            var (end, after, rest) := Out.Fill(served.wd, served.bus, data, clockHz);
            && after == BytesWritten(bus, data, left) && rest == []
            && Ended(wd.r, wd.p.singleByte, end, phase, left - |data|, after)
            && end.p.attention == (wd.p.attention && !(phase == MessageOut && |data| == left && left > 0))
    decreases |data|
  {
    Out.PumpKeepsSound(wd, bus);
    if data == [] {
      PumpEnds(wd, bus, phase, left);
      hide Sound, PumpBus, Ended;
    } else {
      hide Sound, PumpBus, WriteInformation, Ended, Moving, Input;
      FilledByte(wd, bus, phase, data, left, clockHz);
    }
  }

  /** A byte, and then the rest of them. */
  lemma {:induction false} FilledByte(wd: Wd, bus: Bus, phase: Phase, data: seq<Byte>, left: nat, clockHz: nat)
    requires Moving(wd, phase, left) && !wd.p.outputReady && Sound(bus) && 0 < |data| <= left < 0x100_0000 && wd.pending.None?
    requires !Input(phase) && Takes(bus, phase, data, left) && clockHz > 0
    requires |data| == left || PhaseOf(BytesWritten(bus, data, left)) != Some(phase)
    ensures var served := PumpBus(wd, bus, true);
            && Sound(served.bus)
            && var (end, after, rest) := Out.Fill(served.wd, served.bus, data, clockHz);
            && after == BytesWritten(bus, data, left) && rest == []
            && Ended(wd.r, wd.p.singleByte, end, phase, left - |data|, after)
            && end.p.attention == (wd.p.attention && !(phase == MessageOut && |data| == left))
    decreases |data|, 0
  {
    PumpOffers(wd, bus, phase, left);
    var ready := OutputReady(wd);
    var next := Passed(ready, phase, left);
    var after := WriteInformation(bus, data[0], left == 1, true).0;
    FillStep(ready, bus, data, phase, left, clockHz);
    PassedMoves(ready, phase, left);
    hide Sound, PumpBus, WriteInformation, Ended, Passed, Moving, Input;
    Filled(next, after, phase, data[1..], left - 1, clockHz);
    var served := PumpBus(next, after, true);
    var (end, b, rest) := Out.Fill(served.wd, served.bus, data[1..], clockHz);
    CountAside(wd.r, next.r, wd.p.singleByte, end, phase, left, |data|, b);
  }

  /** A Transfer Info in a phase towards the target passes the host's bytes on, up to the count or the end of the phase. */
  lemma InfoOut(wd: Wd, bus: Bus, phase: Phase, count: TransferCount, single: bool, data: seq<Byte>, clockHz: nat)
    requires Quiet(wd) && Sound(bus) && PhaseOf(bus) == Some(phase) && !Input(phase) && clockHz > 0
    requires |data| <= Limit(count, single) && Takes(bus, phase, data, Limit(count, single))
    requires |data| == Limit(count, single) || PhaseOf(BytesWritten(bus, data, Limit(count, single))) != Some(phase)
    ensures var (asked, request) := InfoCommand(wd, count, single);
            && request == Some(TransferInfo)
            && var served := ServeRequest(asked, bus, TransferInfo, true, clockHz);
            && Sound(served.bus)
            && var (end, after, rest) := Out.Fill(served.wd, served.bus, data, clockHz);
            && after == BytesWritten(bus, data, Limit(count, single)) && rest == []
            && Ended(wd.r.(transferCount := count, command := if single then 0xa0 else 0x20), IsSingle(count, single), end, phase,
                     Limit(count, single) - |data|, after)
            && end.p.attention == (wd.p.attention && !(phase == MessageOut && |data| == Limit(count, single)))
  {
    InfoStarts(wd, bus, phase, count, single, clockHz);
    var moving := Going(wd, count, single, phase);
    assert moving.r == wd.r.(transferCount := count, command := if single then 0xa0 else 0x20);
    hide Sound, PumpBus, InfoCommand, Going, Moving, ServeRequest, Ended;
    Filled(moving, bus, phase, data, Limit(count, single), clockHz);
  }

  // The phases of a command

  /** What is left of the data after some of it, or the status after all of it. */
  predicate DataLeft(bus: Bus, count: nat, after: Bus)
    requires InData(bus) && count <= |ToCome(bus)|
  {
    if count < |ToCome(bus)| then InData(after) && ToCome(after) == ToCome(bus)[count..] && AllTaken(after) == AllTaken(bus)
    else after == SetStatus(AllTaken(bus).0, AllTaken(bus).1) && PhaseOf(after) == Some(StatusPhase)
  }

  /** Data In flows as the bytes to come. */
  lemma {:induction false} DataFlows(bus: Bus, count: nat)
    requires InData(bus) && count <= |ToCome(bus)|
    ensures Flows(bus, DataIn, count)
    ensures BytesRead(bus, DataIn, count).1 == ToCome(bus)[..count] && DataLeft(bus, count, BytesRead(bus, DataIn, count).0)
    decreases count
  {
    hide Flows, BytesRead;
    NextByte(bus);
    hide Sound, ReadInformation, ToCome, Incoming, AllTaken;
    var data := ToCome(bus);
    if count == 0 {
      assert data[..0] == [] && data[0..] == data;
      NoneRead(bus);
    } else {
      DataFlowsOn(bus, count);
    }
  }

  lemma {:induction false} DataFlowsOn(bus: Bus, count: nat)
    requires InData(bus) && 0 < count <= |ToCome(bus)|
    ensures Flows(bus, DataIn, count)
    ensures BytesRead(bus, DataIn, count).1 == ToCome(bus)[..count] && DataLeft(bus, count, BytesRead(bus, DataIn, count).0)
    decreases count, 0
  {
    var after := OneDataByte(bus);
    hide *;
    FirstByte(ToCome(bus), count);
    if |ToCome(bus)| > 1 {
      DataFlows(after, count - 1);
      LeftOver(bus, after, count, BytesRead(after, DataIn, count - 1).0);
    } else {
      assert count == 1;
      NoneRead(after);
      NoneLeft(bus, after);
    }
    FirstRead(bus, DataIn, count);
  }

  lemma FirstByte(data: seq<Byte>, count: nat)
    requires 0 < count <= |data|
    ensures data[..count] == [data[0]] + data[1..][..count - 1]
    ensures |data| == 1 ==> data[..count] == [data[0]] + []
  {
  }

  /** The bus after a byte of data, and what is left of them. */
  lemma OneDataByte(bus: Bus) returns (after: Bus)
    requires InData(bus)
    ensures Sound(bus) && PhaseOf(bus) == Some(DataIn) && Incoming(bus) && ToCome(bus) != []
    ensures after == ReadInformation(bus, true).0 && Sound(after) && ReadInformation(bus, true).1 == Ok(Some(ToCome(bus)[0]))
    ensures if |ToCome(bus)| == 1 then
              after == SetStatus(AllTaken(bus).0, AllTaken(bus).1) && PhaseOf(after) == Some(StatusPhase)
            else InData(after) && ToCome(after) == ToCome(bus)[1..] && AllTaken(after) == AllTaken(bus)
  {
    NextByte(bus);
    ReadSound(bus, true);
    TakenKeepsConnection(bus);
    assert bus.connection.Some?;
    StatusComes(AllTaken(bus).0, AllTaken(bus).1);
    hide Sound, ReadInformation, ToCome, Incoming, AllTaken, SetStatus;
    after := ReadInformation(bus, true).0;
  }

  lemma LeftOver(bus: Bus, after: Bus, count: nat, end: Bus)
    requires InData(bus) && InData(after) && 1 < |ToCome(bus)| && 0 < count <= |ToCome(bus)|
    requires ToCome(after) == ToCome(bus)[1..] && AllTaken(after) == AllTaken(bus) && DataLeft(after, count - 1, end)
    ensures DataLeft(bus, count, end)
  {
    hide ToCome, AllTaken, Incoming, PhaseOf, SetStatus, Sound;
    assert ToCome(bus)[1..][count - 1..] == ToCome(bus)[count..];
  }

  lemma NoneLeft(bus: Bus, after: Bus)
    requires InData(bus) && |ToCome(bus)| == 1
    requires after == SetStatus(AllTaken(bus).0, AllTaken(bus).1) && PhaseOf(after) == Some(StatusPhase)
    ensures DataLeft(bus, 1, after)
  {
    hide ToCome, AllTaken, Incoming, PhaseOf, SetStatus, Sound;
  }

  lemma FirstRead(bus: Bus, phase: Phase, count: nat)
    requires Sound(bus) && count > 0 && PhaseOf(bus) == Some(phase)
    requires ReadInformation(bus, true).1.Ok? && ReadInformation(bus, true).1.value.Some?
    requires Sound(ReadInformation(bus, true).0) && Flows(ReadInformation(bus, true).0, phase, count - 1)
    ensures Flows(bus, phase, count)
    ensures var (after, got) := ReadInformation(bus, true);
            var (end, others) := BytesRead(after, phase, count - 1);
            BytesRead(bus, phase, count) == (end, [got.value.value] + others)
  {
    hide Sound, ReadInformation;
  }

  lemma StatusComes(bus: Bus, status: Status)
    requires bus.connection.Some?
    ensures PhaseOf(SetStatus(bus, status)) == Some(StatusPhase)
  {
  }

  lemma NoneRead(bus: Bus)
    requires Sound(bus)
    ensures Flows(bus, DataIn, 0) && BytesRead(bus, DataIn, 0) == (bus, [])
  {
    hide Sound;
  }

  /** The status phase gives one byte and is followed by the message that the command is complete. */
  lemma StatusFlows(bus: Bus)
    requires Sound(bus) && PhaseOf(bus) == Some(StatusPhase)
    ensures Flows(bus, StatusPhase, 1)
    ensures var (after, bytes) := BytesRead(bus, StatusPhase, 1);
            && bytes == [StatusByte(bus.connection.value.status)]
            && PhaseOf(after) == Some(MessageIn) && Flows(after, MessageIn, 1)
            && var (read, message) := BytesRead(after, MessageIn, 1);
            message == [0] && PhaseOf(read) == Some(MessageIn) && AcknowledgeMessage(read, false) == bus.(connection := None)
  {
    ReadSound(bus, true);
    var after := ReadInformation(bus, true).0;
    ReadSound(after, true);
    var read := ReadInformation(after, true).0;
    assert BytesRead(read, MessageIn, 0) == (read, []) && Flows(read, MessageIn, 0);
    assert BytesRead(after, StatusPhase, 0) == (after, []) && Flows(after, StatusPhase, 0);
    hide Sound;
  }

  /** Negating ACK after a message accepts it; after the last one the target is gone. */
  lemma AcknowledgeEnds(wd: Wd, bus: Bus, works: bool, clockHz: nat)
    requires Sound(bus) && clockHz > 0 && wd.p.ackAsserted && !wd.p.attention
    ensures var (asked, request) := Commanded(wd, 3);
            && request.Some?
            && var served := ServeRequest(asked, bus, request.value, works, clockHz);
            && served.bus == AcknowledgeMessage(bus, false) && served.work == Ok(Idle)
            && served.wd.interruptPending && !served.wd.p.ackAsserted
            && served.wd.r.scsiStatus ==
               (if PhaseOf(served.bus).None? then 0x85 else 0x88 + PhaseBits(PhaseOf(served.bus).value))
  {
    hide Sound, PumpBus;
  }

  /** An abort during a transfer stops it where it is: it names the phase, or waits for the staged byte to be taken. */
  lemma AbortStops(wd: Wd, bus: Bus, works: bool, clockHz: nat)
    requires Sound(bus) && clockHz > 0
    ensures var (asked, request) := Commanded(wd, 1);
            && request == Some(Abort)
            && var served := ServeRequest(asked, bus, Abort, works, clockHz);
            && served.bus == bus && served.work == Ok(Idle)
            && var end := if wd.p.inputByte.None? then served.wd
                          else PumpBus(Taken(served.wd), bus, works).wd;
            && (wd.p.inputByte.Some? ==> served.wd.p.aborting && served.wd.p.inputByte == wd.p.inputByte
                                         && PumpBus(Taken(served.wd), bus, works).bus == bus)
            && end.r.scsiStatus == (if PhaseOf(bus).None? then 0x22 else 0x28 + PhaseBits(PhaseOf(bus).value))
            && end.p.pioPhase.None? && !end.p.aborting && end.interruptPending && !end.p.busy
  {
    hide Sound, ReadInformation;
  }

  /** A disconnect clears the controller's progress and frees the bus. */
  lemma DisconnectFrees(wd: Wd, bus: Bus, works: bool, clockHz: nat)
    requires Sound(bus) && clockHz > 0
    ensures var (asked, request) := Commanded(wd, 4);
            && request.Some?
            && var served := ServeRequest(asked, bus, request.value, works, clockHz);
            served.bus == bus.(transaction := None, connection := None) && served.wd.p == NO_PROGRESS && served.work == Ok(Idle)
  {
    hide Sound;
  }

  // A whole command, phase by phase

  lemma LastIsForMessages(bus: Bus, byte: Byte, last: bool)
    requires Sound(bus) && PhaseOf(bus) != Some(MessageOut)
    ensures WriteInformation(bus, byte, last, true) == WriteInformation(bus, byte, false, true)
  {
    hide Sound;
  }

  /** The command phase takes the bytes of a command, and with the last of them executes it. */
  lemma {:induction false} CommandTakes(bus: Bus, c: Connection, cdb: seq<Byte>, rest: seq<Byte>)
    requires Sound(Connected(bus, c)) && c.phase == Command && c.cdb + rest == cdb && rest != []
    requires |cdb| == CdbLength(cdb[0]) && Sound(Connected(bus, c.(cdb := cdb)))
    requires ExecuteConnected(Connected(bus, c.(cdb := cdb))).1 == Ok(true)
    ensures Takes(Connected(bus, c), Command, rest, |rest|)
    ensures BytesWritten(Connected(bus, c), rest, |rest|) == ExecuteConnected(Connected(bus, c.(cdb := cdb))).0
    decreases |rest|
  {
    hide Sound, ExecuteConnected, WriteInformation, Takes, BytesWritten;
    var heard := c.(cdb := c.cdb + [rest[0]]);
    assert heard.cdb[0] == cdb[0];
    ByteHeard(bus, c, rest[0]);
    LastIsForMessages(Connected(bus, c), rest[0], |rest| == 1);
    hide CdbLength;
    assert |rest| == 1 ==> heard.cdb == cdb;
    assert TakesByte(Connected(bus, c), Command, rest[0], |rest| == 1);
    hide TakesByte;
    var after := AfterByte(Connected(bus, c), rest[0], |rest| == 1);
    if |rest| == 1 {
      assert heard.cdb == cdb && rest[1..] == [];
      NoneTaken(after, Command);
    } else {
      assert heard.cdb + rest[1..] == cdb;
      CommandTakes(bus, heard, cdb, rest[1..]);
    }
    FirstTaken(Connected(bus, c), Command, rest, |rest|);
  }

  lemma FirstTaken(bus: Bus, phase: Phase, data: seq<Byte>, left: nat)
    requires Sound(bus) && 0 < |data| <= left && TakesByte(bus, phase, data[0], left == 1)
    requires Takes(AfterByte(bus, data[0], left == 1), phase, data[1..], left - 1)
    ensures Takes(bus, phase, data, left)
    ensures BytesWritten(bus, data, left) == BytesWritten(AfterByte(bus, data[0], left == 1), data[1..], left - 1)
  {
    hide Sound, WriteInformation, TakesByte;
  }

  lemma NoneTaken(bus: Bus, phase: Phase)
    requires Sound(bus)
    ensures Takes(bus, phase, [], 0) && BytesWritten(bus, [], 0) == bus
  {
    hide Sound;
  }

  /** Where a read command is after each of its phases, the host having sent IDENTIFY and the command. */
  datatype Phases = Phases(selected: Bus, identified: Bus, commanded: Bus, given: Bus, told: Bus, read: Bus)

  /**
   A command whose target replies with data goes through its phases: the target takes IDENTIFY and
   the command, gives the reply, its status and the message that it is done, and has gone when
   that is acknowledged.  It leaves the bus that a combined command leaves.
   */
  lemma PhasesOfAReply(bus: Bus, targetId: nat, lun: nat, cdb: seq<Byte>) returns (ph: Phases)
    requires Sound(bus) && !Busy(bus) && lun < 8 && cdb != [] && |cdb| == CdbLength(cdb[0]) && Present(bus, targetId)
    requires StartCommand(bus, targetId, lun, cdb).1.Ok? && StartCommand(bus, targetId, lun, cdb).1.value.StartedIn?
    ensures var started := StartCommand(bus, targetId, lun, cdb).0;
            && Incoming(started)
            && ph.selected == Select(bus, targetId, true).0 && PhaseOf(ph.selected) == Some(MessageOut) && Sound(ph.selected)
            && Takes(ph.selected, MessageOut, [0x80 + lun], 1) && ph.identified == BytesWritten(ph.selected, [0x80 + lun], 1)
            && PhaseOf(ph.identified) == Some(Command) && Sound(ph.identified)
            && Takes(ph.identified, Command, cdb, |cdb|) && ph.commanded == BytesWritten(ph.identified, cdb, |cdb|)
            && PhaseOf(ph.commanded) == Some(DataIn) && Sound(ph.commanded)
            && Flows(ph.commanded, DataIn, |ToCome(started)|)
            && BytesRead(ph.commanded, DataIn, |ToCome(started)|) == (ph.given, ToCome(started))
            && PhaseOf(ph.given) == Some(StatusPhase) && Sound(ph.given) && Flows(ph.given, StatusPhase, 1)
            && BytesRead(ph.given, StatusPhase, 1) == (ph.told, [StatusByte(AllTaken(started).1)])
            && PhaseOf(ph.told) == Some(MessageIn) && Sound(ph.told) && Flows(ph.told, MessageIn, 1)
            && BytesRead(ph.told, MessageIn, 1) == (ph.read, [0])
            && AcknowledgeMessage(ph.read, false) == Released(started)
  {
    var started, data := CommandStarts(bus, targetId, true, lun, cdb);
    var c := Ready(targetId, true, lun);
    Identified(bus, targetId, true, lun);
    var selected := Select(bus, targetId, true).0;
    IdentifyTakes(selected, lun);
    CommandExecutes(bus, targetId, lun, cdb, started, data);
    var commanded := Connected(started, data);
    ConnectionAside(started, data);
    DataFlows(commanded, |ToCome(commanded)|);
    assert ToCome(commanded)[..|ToCome(commanded)|] == ToCome(commanded);
    var given := BytesRead(commanded, DataIn, |ToCome(commanded)|).0;
    StatusSound(commanded, |ToCome(commanded)|);
    StatusFlows(given);
    var told := BytesRead(given, StatusPhase, 1).0;
    var read := BytesRead(told, MessageIn, 1).0;
    ph := Phases(selected, Connected(bus, c), commanded, given, told, read);
    SelectedPhase(bus, targetId);
    GivenStatus(commanded, given);
    hide Sound, StartCommand, Takes, BytesWritten, Flows, BytesRead, ToCome, AllTaken, Incoming, Select;
  }

  lemma SelectedPhase(bus: Bus, targetId: nat)
    requires !Busy(bus) && Present(bus, targetId)
    ensures PhaseOf(Select(bus, targetId, true).0) == Some(MessageOut)
  {
  }

  lemma GivenStatus(bus: Bus, given: Bus)
    requires InData(bus) && given == SetStatus(AllTaken(bus).0, AllTaken(bus).1)
    ensures given.connection.Some? && given.connection.value.status == AllTaken(bus).1
    ensures given.(connection := None) == Released(bus)
  {
    TakenKeepsConnection(bus);
    hide Sound;
  }

  lemma {:induction false} StatusSound(bus: Bus, count: nat)
    requires Sound(bus) && Flows(bus, DataIn, count)
    ensures Sound(BytesRead(bus, DataIn, count).0)
    decreases count
  {
    hide Sound, ReadInformation;
    if count > 0 {
      StatusSound(ReadInformation(bus, true).0, count - 1);
    }
  }

  lemma IdentifyTakes(selected: Bus, lun: nat)
    requires Sound(selected) && PhaseOf(selected) == Some(MessageOut) && lun < 8
    requires Identify(selected, true, lun, true).1 == Ok(true)
    ensures Takes(selected, MessageOut, [0x80 + lun], 1)
    ensures BytesWritten(selected, [0x80 + lun], 1) == Identify(selected, true, lun, true).0
  {
    hide Sound, WriteInformation;
    var after := AfterByte(selected, 0x80 + lun, true);
    assert TakesByte(selected, MessageOut, 0x80 + lun, true);
    assert Takes(after, MessageOut, [], 0) && BytesWritten(after, [], 0) == after;
    assert [0x80 + lun][1..] == [];
  }

  lemma CommandExecutes(bus: Bus, targetId: nat, lun: nat, cdb: seq<Byte>, started: Bus, data: Connection)
    requires Sound(bus) && lun < 8 && cdb != [] && |cdb| == CdbLength(cdb[0])
    requires var c := Ready(targetId, true, lun);
             Sound(Connected(bus, c)) && SendCommand(Connected(bus, c), cdb, true) == (Connected(started, data), Ok(true))
    requires StartCommand(bus, targetId, lun, cdb).1.Ok? && StartCommand(bus, targetId, lun, cdb).1.value.StartedIn?
    ensures var c := Ready(targetId, true, lun);
            Takes(Connected(bus, c), Command, cdb, |cdb|) && BytesWritten(Connected(bus, c), cdb, |cdb|) == Connected(started, data)
  {
    var c := Ready(targetId, true, lun);
    assert [] + cdb == cdb;
    hide Sound, StartCommand, SendCommand, ExecuteConnected, CdbLength;
    CommandCollects(bus, c, cdb, cdb);
    var s, d := ExecutionStarts(bus, c.(cdb := cdb));
    CommandTakes(bus, c, cdb, cdb);
  }
}
