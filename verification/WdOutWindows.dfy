/**
 A Select-And-Transfer command that writes data through the host's one-byte buffer, in
 as many transfer-count windows as the host likes: `WindowsTakeThePayload` says that the
 host's bytes become the payload of one write, and in what state controller and bus are
 left.
 */
module WdOutWindows {
  import opened Options
  import opened Words
  import opened ScsiTargets
  import opened ScsiBus
  import opened ScsiConnection
  import opened ScsiRun
  import opened ScsiTransfer
  import opened Wd33c93b
  import opened WdWindows

  const UNEXPECTED_DATA_OUT: Byte := 0x48

  // The bus under the pump

  /** A connection in Data Out whose target wants bytes. */
  predicate OutData(bus: Bus) {
    Sound(bus) && PhaseOf(bus) == Some(DataOut) && Outgoing(bus)
  }

  /** The bus when a target has got its payload, has given its status and has gone. */
  function Finished(bus: Bus, payload: seq<Byte>): Bus
    requires Outgoing(bus) && |payload| == Wanted(bus)
  {
    AllGiven(bus, payload).0.(connection := None)
  }

  lemma GivenKeepsConnection(bus: Bus, payload: seq<Byte>)
    requires Outgoing(bus) && |payload| == Wanted(bus)
    ensures AllGiven(bus, payload).0.connection == bus.connection
  {
    hide CompleteStorage, CompleteDataOut, Overwritten;
  }

  lemma MovedByte(bus: Bus, byte: Byte)
    requires Outgoing(bus)
    ensures var (after, chunk) := TransferOut(bus, 1, Some([byte]), true);
            && after.connection == bus.connection && (chunk.More? || chunk.Ended?) && chunk.moved == [byte]
  {
    hide CompleteStorage, CompleteDataOut, Overwritten;
  }

  /** A byte written is the next of the payload, and the last one brings the status. */
  lemma GiveByte(bus: Bus, payload: seq<Byte>, last: bool)
    requires OutData(bus) && |payload| == Wanted(bus)
    ensures payload != []
    ensures var (after, taken) := WriteInformation(bus, payload[0], last, true);
            && taken == Ok(true)
            && (if |payload| == 1 then
                  Sound(after) && after == SetStatus(AllGiven(bus, payload).0, AllGiven(bus, payload).1)
                  && AllGiven(bus, payload).0.connection == bus.connection
                else
                  && OutData(after) && Wanted(after) == |payload| - 1 && after.connection == bus.connection
                  && AllGiven(after, payload[1..]) == AllGiven(bus, payload))
  {
    WriteKeeps(bus, payload[0], last, true);
    var p := Push(1, Some([payload[0]]));
    OnePush(bus, p);
    MovedByte(bus, payload[0]);
    GivenKeepsConnection(bus, payload);
    if |payload| > 1 {
      PushThenRest(bus, p, payload[1..]);
      assert [payload[0]] + payload[1..] == payload;
    } else {
      assert [payload[0]] == payload;
    }
    hide TransferOut, Sound, Outgoing, AllGiven;
  }

  // The host

  lemma PumpKeepsSound(wd: Wd, bus: Bus)
    requires Sound(bus)
    ensures Sound(PumpBus(wd, bus, true).bus)
  {
    if wd.p.inputByte.None? {
      PumpAdvances(wd, bus);
    } else {
      hide Sound, TakeStatus, ReadInformation;
    }
  }

  lemma OutputKeepsSound(wd: Wd, bus: Bus, value: Byte)
    requires Sound(bus)
    ensures Sound(ServeOutput(wd, bus, value, true).bus)
  {
    var last := wd.p.pioRemaining == 1;
    hide Sound, WriteInformation, PumpBus;
    var (after, consumed) := WriteSound(bus, value, last, true);
    if consumed.Ok? {
      PumpKeepsSound(AfterOutput(wd, last, consumed.value), after);
    }
  }

  /** The host writes bytes as long as the controller has room for one. */
  function Fill(wd: Wd, bus: Bus, data: seq<Byte>, clockHz: nat): (Wd, Bus, seq<Byte>)
    requires Sound(bus) && clockHz > 0
    decreases |data|
  {
    hide Sound, ServeOutput;
    if !wd.p.outputReady || data == [] then (wd, bus, data)
    else
      var written := WriteDataRegister(wd, data[0]);
      var asked := written.(pending := None);
      var served := ServeRequest(asked, bus, written.pending.value, true, clockHz);
      OutputKeepsSound(asked.(commandInProgress := false), bus, data[0]);
      Fill(served.wd, served.bus, data[1..], clockHz)
  }

  // One window

  /** A controller in the middle of a combined Data Out command by programmed transfer, with n bytes to go. */
  predicate Streaming(wd: Wd, n: nat) {
    && wd.p.combined && !wd.p.aborting && !wd.p.singleByte && wd.p.inputByte.None? && wd.r.control / 0x20 == 0
    && wd.p.pioPhase == Some(DataOut) && wd.p.pioRemaining == n && wd.r.transferCount == n
  }

  /** A window that ends before the payload: count zero, an unexpected-phase status, and the rest still to give. */
  predicate Paused(r: Registers, bus: Bus, payload: seq<Byte>, n: nat, end: Wd, after: Bus, rest: seq<Byte>)
    requires OutData(bus) && |payload| == Wanted(bus) && n < |payload|
  {
    && rest == payload[n..]
    && OutData(after) && Wanted(after) == |rest| && AllGiven(after, rest) == AllGiven(bus, payload)
    && after.connection == bus.connection
    && end.r == r.(transferCount := 0, commandPhase := DATA_TRANSFER_PHASE, scsiStatus := UNEXPECTED_DATA_OUT)
    && end.p.inputByte.None? && !end.p.aborting && !end.p.outputReady && end.interruptPending
  }

  /** A window that covers the payload: the residue, the target's status, and a free bus. */
  predicate Done(r: Registers, bus: Bus, payload: seq<Byte>, n: nat, end: Wd, after: Bus, rest: seq<Byte>)
    requires OutData(bus) && |payload| == Wanted(bus) && |payload| <= n < 0x100_0000
  {
    && rest == [] && after == Finished(bus, payload)
    && end.r == r.(transferCount := n - |payload|, targetLun := StatusByte(AllGiven(bus, payload).1),
                   commandPhase := COMPLETED_PHASE, scsiStatus := COMPLETED)
    && end.p == NO_PROGRESS && end.interruptPending && end.pending.None?
  }

  predicate OutResult(r: Registers, bus: Bus, payload: seq<Byte>, n: nat, end: Wd, after: Bus, rest: seq<Byte>)
    requires OutData(bus) && |payload| == Wanted(bus) && n < 0x100_0000
  {
    if n < |payload| then Paused(r, bus, payload, n, end, after, rest)
    else Done(r, bus, payload, n, end, after, rest)
  }

  /** With count left the pump offers room for a byte; without, it ends the window. */
  lemma PumpOffers(wd: Wd, bus: Bus, payload: seq<Byte>, n: nat)
    requires Streaming(wd, n) && OutData(bus) && |payload| == Wanted(bus)
    ensures n > 0 ==> PumpBus(wd, bus, true) == Served(OutputReady(wd), bus, Ok(Idle))
    ensures n == 0 && !wd.p.outputReady ==>
              var served := PumpBus(wd, bus, true);
              && served.bus == bus && !served.wd.p.outputReady
              && payload != [] && Paused(wd.r, bus, payload, 0, served.wd, bus, payload)
  {
    assert payload[0..] == payload;
    assert payload != [];
    hide Sound, AllGiven, Outgoing;
  }

  /** The target's status ends the command whatever is left of the count. */
  lemma PumpCompletes(wd: Wd, bus: Bus, n: nat)
    requires Streaming(wd, n) && Sound(bus) && PhaseOf(bus) == Some(StatusPhase)
    ensures var served := PumpBus(wd, bus, true);
            && served.bus == bus.(connection := None) && served.wd.p == NO_PROGRESS
            && served.wd.r == wd.r.(targetLun := StatusByte(bus.connection.value.status),
                                    commandPhase := COMPLETED_PHASE, scsiStatus := COMPLETED)
            && served.wd.interruptPending && served.wd.pending.None?
  {
    StatusReleases(wd, bus);
    hide Sound, TakeStatus;
  }

  /** What the controller holds once the target has taken a byte that the host wrote. */
  function Given(wd: Wd): Wd {
    AdvanceByte(wd.(p := wd.p.(outputReady := false), pending := None, commandInProgress := false))
  }

  /** A byte of the host, up to the pump that follows it. */
  lemma FillStep(wd: Wd, bus: Bus, data: seq<Byte>, clockHz: nat)
    requires Sound(bus) && clockHz > 0 && wd.p.outputReady && data != [] && wd.p.pioPhase == Some(DataOut)
    requires WriteInformation(bus, data[0], wd.p.pioRemaining == 1, true).1 == Ok(true)
    ensures var after := WriteInformation(bus, data[0], wd.p.pioRemaining == 1, true).0;
            && Sound(after)
            && (var served := PumpBus(Given(wd), after, true);
                Sound(served.bus) && Fill(wd, bus, data, clockHz) == Fill(served.wd, served.bus, data[1..], clockHz))
  {
    var last := wd.p.pioRemaining == 1;
    WriteKeeps(bus, data[0], last, true);
    var written := WriteDataRegister(wd, data[0]);
    var asked := written.(pending := None, commandInProgress := false);
    assert AfterOutput(asked, last, true) == Given(wd);
    PumpKeepsSound(Given(wd), WriteInformation(bus, data[0], last, true).0);
    hide Sound, WriteInformation, PumpBus;
    assert ServeRequest(written.(pending := None), bus, written.pending.value, true, clockHz)
        == ServeOutput(asked, bus, data[0], true);
  }

  /** A byte and then a window one shorter are the window. */
  lemma OneMoreByte(r: Registers, bus: Bus, next: Bus, payload: seq<Byte>, n: nat, end: Wd, after: Bus, rest: seq<Byte>)
    requires OutData(bus) && OutData(next) && |payload| == Wanted(bus) && 0 < n < 0x100_0000 && |payload| > 1
    requires Wanted(next) == |payload| - 1 && next.connection == bus.connection
    requires AllGiven(next, payload[1..]) == AllGiven(bus, payload)
    requires OutResult(r, next, payload[1..], n - 1, end, after, rest)
    ensures OutResult(r, bus, payload, n, end, after, rest)
  {
    hide Sound, AllGiven, Outgoing;
    if n < |payload| {
      assert payload[1..][n - 1..] == payload[n..];
    }
  }

  lemma LastByteGiven(r: Registers, bus: Bus, payload: seq<Byte>, n: nat, status: Bus, end: Wd, after: Bus)
    requires OutData(bus) && |payload| == Wanted(bus) == 1 && 0 < n < 0x100_0000
    requires AllGiven(bus, payload).0.connection == bus.connection
    requires status == SetStatus(AllGiven(bus, payload).0, AllGiven(bus, payload).1)
    requires after == status.(connection := None)
    requires end.p == NO_PROGRESS && end.interruptPending && end.pending.None?
    requires end.r == r.(transferCount := n - 1, targetLun := StatusByte(status.connection.value.status),
                         commandPhase := COMPLETED_PHASE, scsiStatus := COMPLETED)
    ensures OutResult(r, bus, payload, n, end, after, [])
  {
    hide Sound, AllGiven, Outgoing;
  }

  /** Registers that differ in the count only. */
  lemma CountAside(a: Registers, b: Registers, bus: Bus, payload: seq<Byte>, n: nat, end: Wd, after: Bus, rest: seq<Byte>)
    requires OutData(bus) && |payload| == Wanted(bus) && n < 0x100_0000 && OutResult(a, bus, payload, n, end, after, rest)
    requires a.(transferCount := 0, commandPhase := 0) == b.(transferCount := 0, commandPhase := 0)
    ensures OutResult(b, bus, payload, n, end, after, rest)
  {
    hide Sound, AllGiven, Outgoing;
  }

  /** A whole window, from the pump that starts it. */
  lemma {:induction false} Streamed(wd: Wd, bus: Bus, payload: seq<Byte>, n: nat, clockHz: nat)
    requires Streaming(wd, n) && !wd.p.outputReady && OutData(bus) && |payload| == Wanted(bus)
    requires n < 0x100_0000 && clockHz > 0
    ensures Sound(PumpBus(wd, bus, true).bus)
    ensures var served := PumpBus(wd, bus, true);
            var (end, after, rest) := Fill(served.wd, served.bus, payload, clockHz);
            OutResult(wd.r, bus, payload, n, end, after, rest)
    decreases n
  {
    PumpKeepsSound(wd, bus);
    PumpOffers(wd, bus, payload, n);
    if n > 0 {
      StreamedByte(wd, bus, payload, n, clockHz);
    }
    hide Sound, PumpBus, OutResult, AllGiven, Outgoing;
    if n == 0 {
      NoByte(wd, bus, payload, clockHz);
    }
  }

  lemma NoByte(wd: Wd, bus: Bus, payload: seq<Byte>, clockHz: nat)
    requires Streaming(wd, 0) && !wd.p.outputReady && OutData(bus) && |payload| == Wanted(bus) && clockHz > 0
    requires Sound(PumpBus(wd, bus, true).bus)
    ensures var served := PumpBus(wd, bus, true);
            var (end, after, rest) := Fill(served.wd, served.bus, payload, clockHz);
            OutResult(wd.r, bus, payload, 0, end, after, rest)
  {
    PumpOffers(wd, bus, payload, 0);
    hide Sound, PumpBus, AllGiven, Outgoing, Paused;
  }

  lemma {:induction false} StreamedByte(wd: Wd, bus: Bus, payload: seq<Byte>, n: nat, clockHz: nat)
    requires Streaming(wd, n) && !wd.p.outputReady && OutData(bus) && |payload| == Wanted(bus)
    requires 0 < n < 0x100_0000 && clockHz > 0
    ensures var (end, after, rest) := Fill(OutputReady(wd), bus, payload, clockHz);
            OutResult(wd.r, bus, payload, n, end, after, rest)
    decreases n, 0
  {
    var ready := OutputReady(wd);
    GiveByte(bus, payload, n == 1);
    FillStep(ready, bus, payload, clockHz);
    var next := Given(ready);
    var after := WriteInformation(bus, payload[0], n == 1, true).0;
    assert Streaming(next, n - 1) && !next.p.outputReady && next.r == wd.r.(transferCount := n - 1);
    if |payload| == 1 {
      hide Sound, WriteInformation, PumpBus, AllGiven, Outgoing, OutResult;
      PumpCompletes(next, after, n - 1);
      var last := PumpBus(next, after, true);
      assert payload[1..] == [];
      LastByteGiven(wd.r, bus, payload, n, after, last.wd, last.bus);
    } else {
      hide Sound, WriteInformation, PumpBus, AllGiven, Outgoing, OutResult, OutData;
      Streamed(next, after, payload[1..], n - 1, clockHz);
      var served := PumpBus(next, after, true);
      var (end, b, rest) := Fill(served.wd, served.bus, payload[1..], clockHz);
      CountAside(next.r, wd.r, after, payload[1..], n - 1, end, b, rest);
      OneMoreByte(wd.r, bus, after, payload, n, end, b, rest);
    }
  }

  // Windows

  /** The scheduler serves the command, and the host fills in the data. */
  function RunOutWindow(wd: Wd, bus: Bus, attention: bool, n: TransferCount, data: seq<Byte>, clockHz: nat)
    : (Wd, Bus, seq<Byte>)
    requires Sound(bus) && clockHz > 0 && Quiet(wd)
  {
    hide Sound;
    var issued := Issued(wd, attention, n);
    var asked := issued.(pending := None);
    var served := ServeRequest(asked, bus, issued.pending.value, true, clockHz);
    CombinedSound(asked.(commandInProgress := false), bus, issued.r.destinationId % 8, issued.r.targetLun % 8,
                  issued.r.cdb[..RequestedLength(issued.r.cdb[0])], clockHz);
    Fill(served.wd, served.bus, data, clockHz)
  }

  /** A command that starts data towards the target wants bytes. */
  lemma StartsOutgoing(bus: Bus, targetId: nat, lun: nat, cdb: seq<Byte>)
    requires Sound(bus) && StartCommand(bus, targetId, lun, cdb).1.Ok?
    requires StartCommand(bus, targetId, lun, cdb).1.value.StartedOut?
    ensures Outgoing(StartCommand(bus, targetId, lun, cdb).0) && Present(bus, targetId)
  {
    CommandKeeps(bus, targetId, lun, cdb);
    var slot := SlotOf(targetId, lun).value;
    assert targetId * 8 <= slot < targetId * 8 + 8 && bus.targets[slot].Some?;
    hide Execute, Consistent, ConnectionSound, TransferSound;
  }

  /** A connection to a bus that wants bytes does not change what they come to. */
  lemma OutConnectionAside(bus: Bus, c: Connection, payload: seq<Byte>)
    requires Outgoing(bus) && |payload| == Wanted(bus)
    ensures Outgoing(Connected(bus, c)) && Wanted(Connected(bus, c)) == Wanted(bus)
    ensures AllGiven(Connected(bus, c), payload).1 == AllGiven(bus, payload).1
    ensures Finished(Connected(bus, c), payload) == Finished(bus, payload)
  {
    hide CompleteStorage, CompleteDataOut, Overwritten;
  }

  lemma OutgoingAside(bus: Bus, c: Connection)
    requires Outgoing(bus)
    ensures Outgoing(Connected(bus, c)) && Wanted(Connected(bus, c)) == Wanted(bus)
  {
  }

  /** Executing a collected command that starts data brings the connection to Data Out. */
  lemma ExecutionStartsOut(bus: Bus, c: Connection) returns (started: Bus, data: Connection)
    requires Sound(bus) && Sound(Connected(bus, c)) && |c.cdb| >= 6
    requires StartCommand(bus, c.targetId, UnitOf(c), c.cdb).1.Ok?
    requires StartCommand(bus, c.targetId, UnitOf(c), c.cdb).1.value.StartedOut?
    ensures started == StartCommand(bus, c.targetId, UnitOf(c), c.cdb).0 && data.targetId == c.targetId
    ensures Outgoing(started) && OutData(Connected(started, data))
    ensures ExecuteConnected(Connected(bus, c)) == (Connected(started, data), Ok(true))
  {
    started := StartCommand(bus, c.targetId, UnitOf(c), c.cdb).0;
    data := c.(lun := UnitOf(c), phase := DataOut);
    StartsOutgoing(bus, c.targetId, UnitOf(c), c.cdb);
    ConnectedCommandKeeps(Connected(bus, c));
    StartIgnoresConnection(bus, c.(lun := UnitOf(c)), c.targetId, UnitOf(c), c.cdb);
    OutgoingAside(started, data);
    hide StartCommand, Sound, Outgoing, ConnectionFits;
  }

  /** The whole command brings the connection to Data Out, with what the target wants. */
  lemma CommandStartsOut(bus: Bus, targetId: nat, attention: bool, lun: nat, cdb: seq<Byte>)
    returns (started: Bus, data: Connection)
    requires Sound(bus) && !Busy(bus) && lun < 8 && cdb != [] && |cdb| == CdbLength(cdb[0]) && Present(bus, targetId)
    requires StartCommand(bus, targetId, UnitReached(attention, lun, cdb), cdb).1.Ok?
    requires StartCommand(bus, targetId, UnitReached(attention, lun, cdb), cdb).1.value.StartedOut?
    ensures started == StartCommand(bus, targetId, UnitReached(attention, lun, cdb), cdb).0
    ensures data.targetId == targetId && Outgoing(started) && OutData(Connected(started, data))
    ensures Sound(Connected(bus, Ready(targetId, attention, lun)))
    ensures SendCommand(Connected(bus, Ready(targetId, attention, lun)), cdb, true) == (Connected(started, data), Ok(true))
  {
    hide StartCommand, Sound, SendCommand, Outgoing, CdbLength, ExecuteConnected, Present, Busy;
    var c := Ready(targetId, attention, lun);
    Identified(bus, targetId, attention, lun);
    assert [] + cdb == cdb;
    CommandCollects(bus, c, cdb, cdb);
    assert UnitOf(c.(cdb := cdb)) == UnitReached(attention, lun, cdb);
    started, data := ExecutionStartsOut(bus, c.(cdb := cdb));
  }

  /** A window whose command brings the pump to a bus that wants bytes. */
  lemma OutWindowStreams(wd: Wd, bus: Bus, attention: bool, n: TransferCount, payload: seq<Byte>, clockHz: nat,
                         ready: Wd, b1: Bus)
    requires Quiet(wd) && !wd.p.outputReady && Sound(bus) && clockHz > 0 && OutData(b1) && |payload| == Wanted(b1)
    requires var issued := Issued(wd, attention, n).(pending := None, commandInProgress := false);
             && (ready == issued || ready == AfterSelection(issued))
             && CombinedRequest(issued, bus, wd.r.destinationId % 8, wd.r.targetLun % 8, CommandOf(wd.r), true, clockHz)
                == Pumped(ready, b1, true)
    ensures var (end, after, rest) := RunOutWindow(wd, bus, attention, n, payload, clockHz);
            OutResult(wd.r.(command := if attention then 8 else 9), b1, payload, n, end, after, rest)
  {
    hide Sound, PumpBus, CombinedRequest;
    assert PhaseOf(b1) == Some(DataOut) && Sound(b1);
    hide OutData;
    var issued := Issued(wd, attention, n);
    var start := ready.(p := ready.p.(pioPhase := PhaseOf(b1), pioRemaining := n, singleByte := false));
    Streamed(start, b1, payload, n, clockHz);
    var served := PumpBus(start, b1, true);
    assert ServeRequest(issued.(pending := None), bus, issued.pending.value, true, clockHz) == served;
    var (end, after, rest) := Fill(served.wd, served.bus, payload, clockHz);
    assert RunOutWindow(wd, bus, attention, n, payload, clockHz) == (end, after, rest);
    CountAside(start.r, wd.r.(command := if attention then 8 else 9), b1, payload, n, end, after, rest);
  }

  /** A window that starts a command. */
  lemma FirstOutWindow(wd: Wd, bus: Bus, attention: bool, n: TransferCount, payload: seq<Byte>, clockHz: nat)
    returns (started: Bus, data: Connection)
    requires Quiet(wd) && !wd.p.outputReady && Sound(bus) && !Busy(bus) && clockHz > 0 && wd.r.cdb[0] / 0x20 != 4
    requires Reply(wd, bus, attention).1.Ok? && Reply(wd, bus, attention).1.value.StartedOut?
    requires Outgoing(Reply(wd, bus, attention).0) && |payload| == Wanted(Reply(wd, bus, attention).0)
    ensures started == Reply(wd, bus, attention).0 && data.targetId == wd.r.destinationId % 8
    ensures OutData(Connected(started, data)) && Wanted(Connected(started, data)) == |payload|
    ensures var (end, after, rest) := RunOutWindow(wd, bus, attention, n, payload, clockHz);
            OutResult(wd.r.(command := if attention then 8 else 9), Connected(started, data), payload, n, end, after, rest)
  {
    var cdb := CommandOf(wd.r);
    LengthsAgree(wd.r.cdb[0]);
    assert cdb[0] == wd.r.cdb[0];
    var id, lun := wd.r.destinationId % 8, wd.r.targetLun % 8;
    var issued := Issued(wd, attention, n).(pending := None, commandInProgress := false);
    assert issued.p.attention == attention;
    hide Sound, StartCommand, Outgoing, CdbLength, Present, RunOutWindow, OutResult, Busy, Issued, RequestedLength;
    StartsOutgoing(bus, id, UnitReached(attention, lun, cdb), cdb);
    started, data := CommandStartsOut(bus, id, attention, lun, cdb);
    OutgoingAside(started, data);
    FirstServed(issued, bus, cdb, started, data, lun, clockHz);
    OutWindowStreams(wd, bus, attention, n, payload, clockHz, AfterSelection(issued), Connected(started, data));
  }

  /** A window that resumes a paused command. */
  lemma ResumedOutWindow(wd: Wd, bus: Bus, attention: bool, n: TransferCount, payload: seq<Byte>, clockHz: nat)
    requires Quiet(wd) && !wd.p.outputReady && OutData(bus) && |payload| == Wanted(bus) && clockHz > 0
    requires wd.r.commandPhase == DATA_TRANSFER_PHASE && bus.connection.value.targetId == wd.r.destinationId % 8
    ensures var (end, after, rest) := RunOutWindow(wd, bus, attention, n, payload, clockHz);
            OutResult(wd.r.(command := if attention then 8 else 9), bus, payload, n, end, after, rest)
  {
    hide Sound, PumpBus, Outgoing, RunOutWindow, OutResult, Pumped;
    var issued := Issued(wd, attention, n).(pending := None, commandInProgress := false);
    OutWindowStreams(wd, bus, attention, n, payload, clockHz, issued, bus);
  }

  // Any number of windows

  /** Windows one after the other, as long as the target wants more data. */
  function RunOutWindows(wd: Wd, bus: Bus, attention: bool, counts: seq<TransferCount>, data: seq<Byte>, clockHz: nat)
    : (Wd, Bus, seq<Byte>)
    requires Sound(bus) && clockHz > 0 && Quiet(wd)
    decreases |counts|
  {
    if counts == [] then (wd, bus, data)
    else
      var (end, after, rest) := RunOutWindow(wd, bus, attention, counts[0], data, clockHz);
      if end.r.scsiStatus != UNEXPECTED_DATA_OUT || !Quiet(end) || !Sound(after) then (end, after, rest)
      else RunOutWindows(end, after, attention, counts[1..], rest, clockHz)
  }

  /** The bytes are given in order; when they are all given, the write has them all, and the bus is free. */
  predicate Accepted(bus: Bus, payload: seq<Byte>, counts: seq<TransferCount>, end: Wd, after: Bus, rest: seq<Byte>)
    requires Outgoing(bus) && |payload| == Wanted(bus)
  {
    if Total(counts) < |payload| then rest == payload[Total(counts)..] && PhaseOf(after) == Some(DataOut)
    else
      && rest == [] && after == Finished(bus, payload)
      && end.r.scsiStatus == COMPLETED && end.r.targetLun == StatusByte(AllGiven(bus, payload).1)
      && end.r.transferCount == Residue(counts, |payload|) && end.p == NO_PROGRESS
  }

  /** A paused window and what the windows after it give. */
  lemma OutWindowThenRest(r: Registers, bus: Bus, payload: seq<Byte>, counts: seq<TransferCount>, mid: Wd, next: Bus,
                          given: seq<Byte>, end: Wd, after: Bus, rest: seq<Byte>)
    requires OutData(bus) && |payload| == Wanted(bus) && counts != [] && counts[0] < |payload|
    requires Paused(r, bus, payload, counts[0], mid, next, given)
    requires Accepted(next, given, counts[1..], end, after, rest)
    ensures Accepted(bus, payload, counts, end, after, rest)
  {
    hide Sound, AllGiven, Outgoing;
    var n, total := counts[0], Total(counts[1..]);
    if total < |payload| - n {
      assert payload[n..][total..] == payload[n + total..];
    }
  }

  lemma PausedQuiet(wd: Wd, r: Registers, bus: Bus, payload: seq<Byte>, n: nat, end: Wd, after: Bus, rest: seq<Byte>)
    requires Quiet(wd) && r == wd.r.(command := r.command)
    requires OutData(bus) && |payload| == Wanted(bus) && n < |payload|
    requires Paused(r, bus, payload, n, end, after, rest)
    ensures Quiet(end) && !end.p.outputReady && end.r.commandPhase == DATA_TRANSFER_PHASE && end.r.destinationId == wd.r.destinationId
    ensures end.r.scsiStatus == UNEXPECTED_DATA_OUT && OutData(after) && Sound(after) && |rest| == Wanted(after)
  {
    hide Sound, AllGiven, Outgoing;
  }

  lemma {:induction false} ResumedOutWindows(wd: Wd, bus: Bus, attention: bool, counts: seq<TransferCount>,
                                             payload: seq<Byte>, clockHz: nat)
    requires Quiet(wd) && !wd.p.outputReady && OutData(bus) && |payload| == Wanted(bus) && clockHz > 0
    requires wd.r.commandPhase == DATA_TRANSFER_PHASE && bus.connection.value.targetId == wd.r.destinationId % 8
    ensures var (end, after, rest) := RunOutWindows(wd, bus, attention, counts, payload, clockHz);
            Accepted(bus, payload, counts, end, after, rest)
    decreases |counts|
  {
    GiveByte(bus, payload, false);
    if counts == [] {
      assert payload[0..] == payload;
      hide Sound, AllGiven, Outgoing;
    } else {
      ResumedOutWindow(wd, bus, attention, counts[0], payload, clockHz);
      OutWindowsFrom(wd, bus, bus, attention, counts, payload, clockHz);
    }
  }

  /** From the result of the first window on; `data` is the bus whose target the windows write to. */
  lemma {:induction false} OutWindowsFrom(wd: Wd, bus: Bus, data: Bus, attention: bool, counts: seq<TransferCount>,
                                          payload: seq<Byte>, clockHz: nat)
    requires Quiet(wd) && Sound(bus) && OutData(data) && |payload| == Wanted(data) && clockHz > 0 && counts != []
    requires data.connection.value.targetId == wd.r.destinationId % 8
    requires var (end, after, rest) := RunOutWindow(wd, bus, attention, counts[0], payload, clockHz);
             OutResult(wd.r.(command := if attention then 8 else 9), data, payload, counts[0], end, after, rest)
    ensures var (end, after, rest) := RunOutWindows(wd, bus, attention, counts, payload, clockHz);
            Accepted(data, payload, counts, end, after, rest)
    decreases |counts|, 0
  {
    hide Sound, AllGiven, Outgoing, RunOutWindow, Finished;
    var r := wd.r.(command := if attention then 8 else 9);
    var (mid, next, given) := RunOutWindow(wd, bus, attention, counts[0], payload, clockHz);
    if counts[0] < |payload| {
      PausedQuiet(wd, r, data, payload, counts[0], mid, next, given);
      ResumedOutWindows(mid, next, attention, counts[1..], given, clockHz);
      var (end, after, rest) := RunOutWindows(mid, next, attention, counts[1..], given, clockHz);
      OutWindowThenRest(r, data, payload, counts, mid, next, given, end, after, rest);
    }
  }

  /** A command whose target takes data, outside the group of sixteen bytes, over any windows. */
  lemma WindowsTakeThePayload(wd: Wd, bus: Bus, attention: bool, counts: seq<TransferCount>, payload: seq<Byte>, clockHz: nat)
    requires Quiet(wd) && !wd.p.outputReady && Sound(bus) && !Busy(bus) && clockHz > 0 && wd.r.cdb[0] / 0x20 != 4
    requires Reply(wd, bus, attention).1.Ok? && Reply(wd, bus, attention).1.value.StartedOut?
    requires Outgoing(Reply(wd, bus, attention).0) && |payload| == Wanted(Reply(wd, bus, attention).0)
    requires counts != []
    ensures var (end, after, rest) := RunOutWindows(wd, bus, attention, counts, payload, clockHz);
            Accepted(Reply(wd, bus, attention).0, payload, counts, end, after, rest)
  {
    var started, data := FirstOutWindow(wd, bus, attention, counts[0], payload, clockHz);
    OutWindowsFrom(wd, bus, Connected(started, data), attention, counts, payload, clockHz);
    OutConnectionAside(started, data, payload);
    hide RunOutWindows, Reply, Outgoing, AllGiven, Finished, Sound;
  }
}
