/**
 Selecting a target.  One that is absent is waited for as long as the timeout register
 says, and then the controller reports it: `AbsentTimesOut`.  One that is there is
 connected in the phase that attention asks for: `PresentIsSelected`.
 */
module WdSelection {
  import opened Arithmetic
  import opened Options
  import opened Words
  import opened ScsiTargets
  import opened ScsiBus
  import opened ScsiConnection
  import opened ScsiRun
  import opened Wd33c93b

  /** Select with and without attention, alone (6, 7) or with a transfer (8, 9). */
  predicate Selects(command: Byte) {
    6 <= command <= 9
  }

  predicate WithAttention(command: Byte) {
    command == 6 || command == 8
  }

  /** A controller that has taken a command, and what it leaves for the scheduler. */
  function Commanded(wd: Wd, command: Byte): (Wd, Option<Request>)
    requires Supported(command)
  {
    var asked := ExecuteCommand(wd, command);
    (asked.(pending := None), asked.pending)
  }

  /** The wait is the least that counts 80 000 input clocks for each unit of the register; zero is no end. */
  predicate WaitIs(wait: Option<nat>, period: Byte, clockHz: nat) {
    var due := period * 80_000 * ATTOSECONDS_PER_SECOND;
    && (wait.None? <==> period == 0)
    && (wait.Some? ==> wait.value * clockHz >= due && forall w: nat :: w * clockHz >= due ==> w >= wait.value)
  }

  lemma LeastWait(due: nat, clockHz: nat)
    requires clockHz > 0
    ensures var w := (due + clockHz - 1) / clockHz;
            w * clockHz >= due && forall v: nat :: v * clockHz >= due ==> v >= w
  {
    var w := (due + clockHz - 1) / clockHz;
    assert w > 0 ==> (w - 1) * clockHz < due;
    forall v: nat | v * clockHz >= due
      ensures v >= w
    {
      MoreClocks(v, w - 1, clockHz);
    }
  }

  lemma MoreClocks(v: int, w: int, clockHz: nat)
    ensures v <= w ==> v * clockHz <= w * clockHz
  {
  }

  /** The selection of an absent target on a free bus waits, and times out with nothing changed but the status. */
  lemma AbsentTimesOut(wd: Wd, bus: Bus, command: Byte, works: bool, clockHz: nat)
    requires Selects(command) && Sound(bus) && !Busy(bus) && !Present(bus, wd.r.destinationId % 8) && clockHz > 0
    ensures var (asked, request) := Commanded(wd, command);
            request.Some? &&
            var waiting := ServeRequest(asked, bus, request.value, works, clockHz);
            && waiting.bus == bus && waiting.wd.p.busy && !waiting.wd.interruptPending
            && waiting.work.Ok? && waiting.work.value.SelectionWait?
            && WaitIs(waiting.work.value.after, wd.r.timeoutPeriod, clockHz)
            && waiting.wd.pending.Some? &&
            var end := ServeRequest(waiting.wd.(pending := None), bus, waiting.wd.pending.value, works, clockHz);
            && end.bus == bus && end.work == Ok(Idle)
            && end.wd.r == wd.r.(command := command, commandPhase := 0, scsiStatus := 0x42)
            && end.wd.p == NO_PROGRESS && end.wd.interruptPending && !end.wd.commandInProgress && end.wd.pending.None?
  {
    var (asked, request) := Commanded(wd, command);
    SelectionWaits(asked, bus, request.value, works, clockHz);
    var waiting := ServeRequest(asked, bus, request.value, works, clockHz);
    TimeoutEnds(waiting.wd.(pending := None), bus, works, clockHz);
    hide Sound, RequestedLength, Present, ServeRequest, WaitIs, WaitForSelection;
  }

  lemma TimeoutEnds(wd: Wd, bus: Bus, works: bool, clockHz: nat)
    requires Sound(bus) && clockHz > 0
    ensures var end := ServeRequest(wd, bus, Timeout, works, clockHz);
            && end.bus == bus && end.work == Ok(Idle)
            && end.wd.r == wd.r.(commandPhase := 0, scsiStatus := 0x42)
            && end.wd.p == NO_PROGRESS && end.wd.interruptPending && !end.wd.commandInProgress && end.wd.pending.None?
  {
    hide Sound;
  }

  lemma SelectionWaits(wd: Wd, bus: Bus, request: Request, works: bool, clockHz: nat)
    requires request.SelectOnly? || request.Combined?
    requires Sound(bus) && !Busy(bus) && !Present(bus, request.targetId) && clockHz > 0
    ensures var waiting := ServeRequest(wd, bus, request, works, clockHz);
            && waiting == WaitForSelection(wd.(commandInProgress := false), bus, clockHz)
            && waiting.work.Ok? && waiting.work.value.SelectionWait?
            && WaitIs(waiting.work.value.after, wd.r.timeoutPeriod, clockHz)
            && waiting.wd == wd.(commandInProgress := false, p := wd.p.(busy := true), pending := waiting.wd.pending)
            && waiting.wd.pending == Some(Timeout)
  {
    hide Sound, Present;
    LeastWait(wd.r.timeoutPeriod * 80_000 * ATTOSECONDS_PER_SECOND, clockHz);
  }

  /** The selection of a target alone ends at once, with the target waiting for a message or a command. */
  lemma PresentIsSelected(wd: Wd, bus: Bus, command: Byte, works: bool, clockHz: nat)
    requires (command == 6 || command == 7) && Sound(bus) && !Busy(bus) && Present(bus, wd.r.destinationId % 8) && clockHz > 0
    ensures var (asked, request) := Commanded(wd, command);
            request.Some? &&
            var served := ServeRequest(asked, bus, request.value, works, clockHz);
            && served.work == Ok(Idle) && served.wd.r == wd.r.(command := command, scsiStatus := 0x11)
            && served.wd.interruptPending && !served.wd.p.busy && served.wd.pending.None?
            && PhaseOf(served.bus) == Some(if WithAttention(command) then MessageOut else Command)
            && served.bus.connection.value.targetId == wd.r.destinationId % 8
            && served.bus.targets == bus.targets && served.bus.transaction == bus.transaction
  {
    hide Sound, RequestedLength;
  }

  /** A combined command shows how far it has come: the target selected, or IDENTIFY sent as well, which drops attention. */
  lemma SelectionShows(wd: Wd)
    ensures AfterSelection(wd)
         == wd.(r := wd.r.(commandPhase := if wd.p.attention then 0x20 else 0x10), p := wd.p.(attention := false))
  {
  }

  /** A connected bus refuses, but a combined command that goes on with its target: the status says so and the bus stays as it is. */
  lemma BusyIsRefused(wd: Wd, bus: Bus, command: Byte, works: bool, clockHz: nat)
    requires Selects(command) && Sound(bus) && PhaseOf(bus).Some? && clockHz > 0
    requires command == 8 || command == 9 ==>
               bus.connection.value.targetId != wd.r.destinationId % 8 || wd.r.commandPhase !in {0x45, 0x46}
    ensures var (asked, request) := Commanded(wd, command);
            request.Some? &&
            var served := ServeRequest(asked, bus, request.value, works, clockHz);
            served.bus == bus && served.wd.r.scsiStatus == 0x40 && served.wd.interruptPending && served.work == Ok(Idle)
  {
    hide Sound, RequestedLength;
  }

  /** A command that works on the bus shows the controller busy, takes back the interrupt, and leaves its request. */
  lemma CommandBegins(wd: Wd, command: Byte)
    requires Selects(command) || command == 0x20 || command == 0xa0
    ensures var asked := ExecuteCommand(wd, command);
            && asked.r == wd.r.(command := command)
            && asked.p.busy && asked.commandInProgress && !asked.interruptPending && !asked.p.phaseAfterStatus
            && asked.pending ==
               (if command == 0x20 || command == 0xa0 then Some(TransferInfo)
                else if command == 6 || command == 7 then Some(SelectOnly(wd.r.destinationId % 8, command == 6))
                else Some(Combined(wd.r.destinationId % 8, wd.r.targetLun % 8, wd.r.cdb[..RequestedLength(wd.r.cdb[0])])))
            && (command == 6 || command == 7 ==> asked.p == NO_PROGRESS.(busy := true, attention := command == 6))
            && (command == 8 || command == 9 ==>
                  asked.p == wd.p.(busy := true, combined := true, attention := command == 8, phaseAfterStatus := false))
            && (command == 0x20 || command == 0xa0 ==>
                  && !asked.p.combined && asked.p.inputByte.None? && !asked.p.outputReady
                  && (asked.p.singleByte <==> command == 0xa0 || wd.r.transferCount == 0))
  {
    hide RequestedLength;
  }

  /** A software reset clears the registers but the own identification, whose bit 3 shows in the status. */
  lemma ResetClears(wd: Wd)
    ensures var after := ExecuteCommand(wd, 0);
            && after.r == Registers(wd.r.ownId, 0, 0, seq(12, _ => 0), 0, 0, 0, 0, if wd.r.ownId / 8 % 2 == 1 then 1 else 0, 0)
            && after.p == NO_PROGRESS && after.interruptPending && after.resetCompleted && after.pending.None?
            && !after.commandInProgress
  {
  }
}
