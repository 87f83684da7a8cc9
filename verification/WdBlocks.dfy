/**
 The disk as the host of the controller sees it: blocks written by one command, through
 windows of any sizes, are the blocks that another command reads, through windows of
 any sizes.
 */
module WdBlocks {
  import opened Options
  import opened Words
  import opened ScsiTargets
  import opened ScsiBus
  import opened ScsiConnection
  import opened ScsiRun
  import opened ScsiTransfer
  import opened ScsiBlocks
  import opened Wd33c93b
  import opened WdWindows
  import Out = WdOutWindows

  /** The unit that the command in the registers reaches. */
  function UnitOfCommand(wd: Wd, attention: bool): nat {
    UnitReached(attention, wd.r.targetLun % 8, CommandOf(wd.r))
  }

  /** A free bus with a ready target that the command in the registers reaches. */
  predicate Reaches(wd: Wd, bus: Bus, attention: bool) {
    && Quiet(wd) && !wd.p.outputReady && Sound(bus) && !Busy(bus) && wd.r.cdb[0] / 0x20 != 4
    && CanStart(bus, wd.r.destinationId % 8, UnitOfCommand(wd, attention))
  }

  /** The command names blocks that the medium has. */
  predicate InRangeOf(wd: Wd, bus: Bus, attention: bool)
    requires Reaches(wd, bus, attention) && (IsRead(CommandOf(wd.r)) || IsWrite(CommandOf(wd.r)))
  {
    var size := BlockSize(Unit(bus, wd.r.destinationId % 8, UnitOfCommand(wd, attention)).target);
    && size > 0 && 0 < BlocksNamed(CommandOf(wd.r))
    && FirstBlock(CommandOf(wd.r)) + BlocksNamed(CommandOf(wd.r))
       <= |Medium(bus, wd.r.destinationId % 8, UnitOfCommand(wd, attention))| / size
  }

  /** A read through windows that cover it gives the blocks it names, with status Good, and leaves the bus as it was. */
  lemma BlocksAreRead(wd: Wd, bus: Bus, attention: bool, counts: seq<TransferCount>, clockHz: nat)
    requires Reaches(wd, bus, attention) && IsRead(CommandOf(wd.r)) && InRangeOf(wd, bus, attention)
    requires counts != [] && clockHz > 0
    requires var size := BlockSize(Unit(bus, wd.r.destinationId % 8, UnitOfCommand(wd, attention)).target);
             Total(counts) >= BlocksNamed(CommandOf(wd.r)) * size
    ensures var medium := Medium(bus, wd.r.destinationId % 8, UnitOfCommand(wd, attention));
            var size := BlockSize(Unit(bus, wd.r.destinationId % 8, UnitOfCommand(wd, attention)).target);
            var first, count := FirstBlock(CommandOf(wd.r)), BlocksNamed(CommandOf(wd.r));
            var (end, after, bytes) := RunWindows(wd, bus, attention, counts, clockHz);
            && first * size + count * size <= |medium|
            && bytes == Blocks(medium, size, first, count) && after == bus
            && end.r.scsiStatus == COMPLETED && end.r.targetLun == StatusByte(Good) && end.p == NO_PROGRESS
  {
    var d := ReadReplies(wd, bus, attention);
    hide *;
    WindowsGiveTheReply(wd, bus, attention, counts, clockHz);
    var (end, after, bytes) := RunWindows(wd, bus, attention, counts, clockHz);
    AllDelivered(bus, d, counts, end, after, bytes);
  }

  /** What the command starts is a read of its blocks. */
  lemma ReadReplies(wd: Wd, bus: Bus, attention: bool) returns (d: Bus)
    requires Reaches(wd, bus, attention) && IsRead(CommandOf(wd.r)) && InRangeOf(wd, bus, attention)
    ensures var medium := Medium(bus, wd.r.destinationId % 8, UnitOfCommand(wd, attention));
            var size := BlockSize(Unit(bus, wd.r.destinationId % 8, UnitOfCommand(wd, attention)).target);
            var first, count := FirstBlock(CommandOf(wd.r)), BlocksNamed(CommandOf(wd.r));
            && first * size + count * size <= |medium|
            && d == Reply(wd, bus, attention).0
            && Reply(wd, bus, attention).1.Ok? && Reply(wd, bus, attention).1.value.StartedIn?
            && Incoming(d) && ToCome(d) == Blocks(medium, size, first, count) && |ToCome(d)| == count * size
            && AllTaken(d) == (bus, Good)
    ensures Quiet(wd) && Sound(bus) && !Busy(bus) && wd.r.cdb[0] / 0x20 != 4
  {
    hide Sound, FirstBlock, BlocksNamed, StartCommand, Incoming, ToCome, AllTaken, Blocks;
    ReadStarts(bus, wd.r.destinationId % 8, UnitOfCommand(wd, attention), CommandOf(wd.r));
    d := Reply(wd, bus, attention).0;
  }

  lemma AllDelivered(bus: Bus, d: Bus, counts: seq<TransferCount>, end: Wd, after: Bus, bytes: seq<Byte>)
    requires !Busy(bus) && Incoming(d) && AllTaken(d) == (bus, Good) && Total(counts) >= |ToCome(d)|
    requires Delivered(d, counts, end, after, bytes)
    ensures bytes == ToCome(d) && after == bus
    ensures end.r.scsiStatus == COMPLETED && end.r.targetLun == StatusByte(Good) && end.p == NO_PROGRESS
  {
    FreeBus(bus);
    hide Incoming, ToCome, AllTaken;
  }

  lemma FreeBus(bus: Bus)
    requires !Busy(bus)
    ensures bus.(connection := None) == bus
  {
  }

  /** A write of a ready disk through windows that cover it puts the host's bytes in the blocks it names. */
  lemma BlocksAreWritten(wd: Wd, bus: Bus, attention: bool, counts: seq<TransferCount>, payload: seq<Byte>, clockHz: nat)
    requires WritesTo(wd, bus, attention, payload) && counts != [] && Total(counts) >= |payload| && clockHz > 0
    ensures var id, lun := wd.r.destinationId % 8, UnitOfCommand(wd, attention);
            var medium, first := Medium(bus, id, lun), FirstBlock(CommandOf(wd.r));
            var (end, after, rest) := Out.RunOutWindows(wd, bus, attention, counts, payload, clockHz);
            && first * DISK_BLOCK + |payload| <= |medium| && rest == []
            && after == WithMedium(bus, id, lun, Overwritten(medium, first * DISK_BLOCK, payload))
            && end.r.scsiStatus == COMPLETED && end.r.targetLun == StatusByte(Good) && end.p == NO_PROGRESS
  {
    var d, written := WriteReplies(wd, bus, attention, payload);
    hide *;
    Out.WindowsTakeThePayload(wd, bus, attention, counts, payload, clockHz);
    var (end, after, rest) := Out.RunOutWindows(wd, bus, attention, counts, payload, clockHz);
    AllAccepted(written, d, counts, payload, end, after, rest);
  }

  /** The command in the registers writes blocks that a ready disk has, and the host holds bytes for them. */
  predicate WritesTo(wd: Wd, bus: Bus, attention: bool, payload: seq<Byte>) {
    && Reaches(wd, bus, attention) && IsWrite(CommandOf(wd.r)) && InRangeOf(wd, bus, attention)
    && CanWrite(bus, wd.r.destinationId % 8, UnitOfCommand(wd, attention))
    && |payload| == BlocksNamed(CommandOf(wd.r)) * DISK_BLOCK
  }

  lemma WriteReplies(wd: Wd, bus: Bus, attention: bool, payload: seq<Byte>) returns (d: Bus, written: Bus)
    requires WritesTo(wd, bus, attention, payload)
    ensures var id, lun := wd.r.destinationId % 8, UnitOfCommand(wd, attention);
            var medium, first := Medium(bus, id, lun), FirstBlock(CommandOf(wd.r));
            && first * DISK_BLOCK + |payload| <= |medium|
            && written == WithMedium(bus, id, lun, Overwritten(medium, first * DISK_BLOCK, payload))
            && d == Reply(wd, bus, attention).0
            && Reply(wd, bus, attention).1.Ok? && Reply(wd, bus, attention).1.value.StartedOut?
            && Outgoing(d) && Wanted(d) == |payload| && AllGiven(d, payload) == (written, Good)
            && written.connection.None?
    ensures Quiet(wd) && !wd.p.outputReady && Sound(bus) && !Busy(bus) && wd.r.cdb[0] / 0x20 != 4
  {
    hide Sound, FirstBlock, BlocksNamed, StartCommand, Outgoing, Wanted, AllGiven, Overwritten;
    var id, lun := wd.r.destinationId % 8, UnitOfCommand(wd, attention);
    WriteTakes(bus, id, lun, CommandOf(wd.r), payload);
    d := Reply(wd, bus, attention).0;
    written := WithMedium(bus, id, lun, Overwritten(Medium(bus, id, lun), FirstBlock(CommandOf(wd.r)) * DISK_BLOCK, payload));
  }

  lemma AllAccepted(written: Bus, d: Bus, counts: seq<TransferCount>, payload: seq<Byte>, end: Wd, after: Bus, rest: seq<Byte>)
    requires written.connection.None? && Outgoing(d) && |payload| == Wanted(d) && AllGiven(d, payload) == (written, Good)
    requires Total(counts) >= |payload| && Out.Accepted(d, payload, counts, end, after, rest)
    ensures rest == [] && after == written
    ensures end.r.scsiStatus == COMPLETED && end.r.targetLun == StatusByte(Good) && end.p == NO_PROGRESS
  {
    hide Outgoing, AllGiven;
  }

  /** What one command wrote another reads, whatever windows the host programs for either. */
  lemma WrittenIsRead(wd: Wd, bus: Bus, attention: bool, counts: seq<TransferCount>, payload: seq<Byte>, reader: Wd,
                      others: seq<TransferCount>, clockHz: nat)
    requires WritesTo(wd, bus, attention, payload) && counts != [] && Total(counts) >= |payload| && clockHz > 0
    requires var after := Out.RunOutWindows(wd, bus, attention, counts, payload, clockHz).1;
             Reaches(reader, after, attention) && IsRead(CommandOf(reader.r))
    requires reader.r.destinationId == wd.r.destinationId && UnitOfCommand(reader, attention) == UnitOfCommand(wd, attention)
    requires FirstBlock(CommandOf(reader.r)) == FirstBlock(CommandOf(wd.r))
    requires BlocksNamed(CommandOf(reader.r)) == BlocksNamed(CommandOf(wd.r))
    requires others != [] && Total(others) >= |payload|
    ensures var after := Out.RunOutWindows(wd, bus, attention, counts, payload, clockHz).1;
            RunWindows(reader, after, attention, others, clockHz).1 == after
            && RunWindows(reader, after, attention, others, clockHz).2 == payload
  {
    var id, lun := wd.r.destinationId % 8, UnitOfCommand(wd, attention);
    var medium, first, count := Medium(bus, id, lun), FirstBlock(CommandOf(wd.r)), BlocksNamed(CommandOf(wd.r));
    BlocksAreWritten(wd, bus, attention, counts, payload, clockHz);
    var after := Out.RunOutWindows(wd, bus, attention, counts, payload, clockHz).1;
    var filled := Overwritten(medium, first * DISK_BLOCK, payload);
    ReadableAgain(bus, id, lun, filled);
    PayloadBlocks(medium, first, count, payload);
    assert InRangeOf(reader, after, attention) by {
      assert DISK_BLOCK > 0;
      hide CanStart, FirstBlock, BlocksNamed, Out.RunOutWindows, CommandOf, Medium, Quiet, Sound;
    }
    hide *;
    BlocksAreRead(reader, after, attention, others, clockHz);
  }

  lemma ReadableAgain(bus: Bus, id: nat, lun: nat, medium: seq<Byte>)
    requires CanWrite(bus, id, lun) && |medium| == |Medium(bus, id, lun)|
    ensures var after := WithMedium(bus, id, lun, medium);
            CanStart(after, id, lun) && Medium(after, id, lun) == medium && BlockSize(Unit(after, id, lun).target) == DISK_BLOCK
  {
    StillWrites(bus, id, lun, medium);
  }

  lemma PayloadBlocks(medium: seq<Byte>, first: nat, count: nat, payload: seq<Byte>)
    requires |payload| == count * DISK_BLOCK && first * DISK_BLOCK + |payload| <= |medium|
    ensures var filled := Overwritten(medium, first * DISK_BLOCK, payload);
            Blocks(filled, DISK_BLOCK, first, count) == payload
  {
    OverwrittenSlice(medium, first * DISK_BLOCK, payload, first * DISK_BLOCK, first * DISK_BLOCK + count * DISK_BLOCK);
    assert payload[0..|payload|] == payload;
    hide Overwritten;
  }
}
