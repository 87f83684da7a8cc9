/**
 What the targets tell and remember from one command to the next: sense data, capacity,
 block size, readiness, unit attention and the lock of the drive.
 */
module ScsiReplies {
  import opened Arithmetic
  import opened Options
  import opened Words
  import opened ScsiTargets
  import opened ScsiBus
  import opened ScsiTransfer
  import opened ScsiBlocks

  /** A complete command of six or ten bytes. */
  predicate IsCommand(cdb: seq<Byte>, opcode: Byte) {
    |cdb| >= (if opcode < 0x20 then 6 else 10) && cdb[0] == opcode
  }

  /** The command is refused, for the reason that a request for sense then gives. */
  predicate Refuses(t: Target, cdb: seq<Byte>, reason: SenseData)
    requires TargetSound(t)
  {
    Execute(t, cdb) == (WithSense(t, reason), Complete(CheckCondition, []))
  }

  // Sense

  /** A drive with a unit attention gives it to the next command that is not INQUIRY or REQUEST SENSE, once. */
  lemma AttentionIsGivenOnce(c: Cdrom, cdb: seq<Byte>)
    requires BlockSizeSupported(c.blockBytes) && c.attention.Some? && cdb != []
    ensures ExecuteCdrom(c, cdb).0.attention ==
            (if cdb[0] == 0x12 || cdb[0] == 0x03 then c.attention else None)
    ensures cdb[0] != 0x12 && cdb[0] != 0x03 ==>
              ExecuteCdrom(c, cdb) == (c.(attention := None, sense := c.attention.value), Complete(CheckCondition, []))
  {
    hide Truncated, FixedSense, Inquiry, ModeSense;
  }

  /** Only a medium that the host changes raises one, and it says that the medium may have changed. */
  lemma ChangesRaiseAttention(c: Cdrom, size: nat, origin: Origin)
    ensures Inserted(c, size, origin).attention == (if origin == External then Some(SenseData(6, 0x28, 0)) else c.attention)
    ensures Removed(c, origin).attention == (if origin == External then Some(SenseData(6, 0x28, 0)) else c.attention)
    ensures Inserted(c, size, origin).started && !Removed(c, origin).started
    ensures Inserted(c, size, origin).mediumBytes == Some(size) && Removed(c, origin).mediumBytes.None?
    ensures var i, r := Inserted(c, size, origin), Removed(c, origin);
            && i.removalPrevented == c.removalPrevented == r.removalPrevented
            && i.blockBytes == c.blockBytes == r.blockBytes && i.sense == c.sense == r.sense
  {
  }

  /** REQUEST SENSE tells the last reason, in fixed format, and forgets it. */
  lemma SenseIsTold(t: Target, cdb: seq<Byte>)
    requires TargetSound(t) && IsCommand(cdb, 0x03)
    ensures var (after, plan) := Execute(t, cdb);
            && after == WithSense(t, SenseData(0, 0, 0))
            && plan.Complete? && plan.status == Good && |plan.dataIn| == Min(cdb[4], 18)
            && (cdb[4] >= 18 ==>
                  && plan.dataIn[0] == 0x70 && plan.dataIn[7] == 18 - 8
                  && plan.dataIn[2] == SenseOf(t).key && plan.dataIn[12] == SenseOf(t).asc && plan.dataIn[13] == SenseOf(t).ascq)
  {
  }

  /** The status bytes on the bus. */
  lemma StatusBytes()
    ensures StatusByte(Good) == 0x00 && StatusByte(CheckCondition) == 0x02
  {
  }

  // Readiness

  /** What a drive or disk that is not ready says. */
  function WhyNotReady(t: Target): SenseData {
    if t.CdromTarget? && t.cdrom.mediumBytes.None? then SenseData(2, 0x3a, 0) else SenseData(2, 0x04, 0x02)
  }

  predicate NoAttention(t: Target) {
    t.CdromTarget? ==> t.cdrom.attention.None?
  }

  /** TEST UNIT READY tells whether the target is ready. */
  lemma ReadinessIsTold(t: Target, cdb: seq<Byte>)
    requires TargetSound(t) && NoAttention(t) && IsCommand(cdb, 0x00)
    ensures if Ready(t) then Execute(t, cdb) == (t, Complete(Good, [])) else Refuses(t, cdb, WhyNotReady(t))
  {
  }

  /** A target that is not ready refuses to read, to write and to tell its capacity. */
  lemma UnreadyRefuses(t: Target, cdb: seq<Byte>)
    requires TargetSound(t) && NoAttention(t) && !Ready(t)
    requires IsRead(cdb) || IsCommand(cdb, 0x25) || (IsWrite(cdb) && t.DiskTarget?)
    ensures Refuses(t, cdb, WhyNotReady(t))
  {
    hide Lba6, Count6, Count10, WordAt;
  }

  /** A CD-ROM is never written. */
  lemma CdromIsProtected(t: Target, cdb: seq<Byte>)
    requires TargetSound(t) && NoAttention(t) && t.CdromTarget? && IsWrite(cdb)
    ensures Refuses(t, cdb, if cdb[0] == 0x2a then SenseData(7, 0x27, 0) else SenseData(5, 0x20, 0))
  {
  }

  /** START and STOP, without a request to eject. */
  lemma StartsAndStops(t: Target, cdb: seq<Byte>)
    requires TargetSound(t) && NoAttention(t) && IsCommand(cdb, 0x1b)
    requires t.DiskTarget? || cdb[4] % 2 == 1 || cdb[4] / 2 % 2 == 0
    ensures var (after, plan) := Execute(t, cdb);
            && plan == Complete(Good, [])
            && (Ready(after) <==> cdb[4] % 2 == 1 && BelievedSize(t).Some?)
            && BelievedSize(after) == BelievedSize(t) && SenseOf(after) == SenseOf(t) && NoAttention(after)
  {
  }

  // Capacity and block size

  lemma WordIsNumber(word: Word)
    ensures Number(WordBytes(word)) == word && |WordBytes(word)| == 4
  {
    FourBytes(WordBytes(word));
    WordRoundTrip(word);
  }

  /** READ CAPACITY gives the number of the last block and the size of each, which make up the medium. */
  lemma CapacityIsTold(t: Target, cdb: seq<Byte>)
    requires TargetSound(t) && Ready(t) && IsCommand(cdb, 0x25)
    ensures var (after, plan) := Execute(t, cdb);
            && after == t && plan.Complete? && plan.status == Good && |plan.dataIn| == 8
            && Number(plan.dataIn[4..]) == BlockSize(t)
            && (Number(plan.dataIn[..4]) + 1) * BlockSize(t) == BelievedSize(t).value
  {
    var size := BlockSize(t);
    var blocks := BelievedSize(t).value / size;
    Whole(t);
    CapacityReply(t, cdb);
    CapacityBytes(blocks - 1, size);
    hide Number, Capacity, Execute, Ready, TargetSound;
  }

  lemma CapacityReply(t: Target, cdb: seq<Byte>)
    requires TargetSound(t) && Ready(t) && IsCommand(cdb, 0x25)
    ensures BlockSize(t) > 0 && 0 < BelievedSize(t).value / BlockSize(t) <= MAX_BLOCKS
    ensures Execute(t, cdb) == (t, Complete(Good, Capacity(BelievedSize(t).value / BlockSize(t) - 1, BlockSize(t))))
  {
    Whole(t);
    hide MediumValid, Capacity;
  }

  lemma CapacityBytes(last: Word, size: Word)
    ensures var data := Capacity(last, size); |data| == 8 && Number(data[..4]) == last && Number(data[4..]) == size
  {
    var data := Capacity(last, size);
    assert data[..4] == WordBytes(last) && data[4..] == WordBytes(size);
    WordIsNumber(last);
    WordIsNumber(size);
    hide Number;
  }

  lemma Whole(t: Target)
    requires TargetSound(t) && BelievedSize(t).Some?
    ensures var size := BlockSize(t);
            var blocks := BelievedSize(t).value / size;
            size > 0 && blocks * size == BelievedSize(t).value && 0 < blocks <= MAX_BLOCKS
  {
    if t.CdromTarget? {
      BlocksDivide(t.cdrom.mediumBytes.value);
    }
  }

  /** MODE SENSE tells the block size in the last three of twelve bytes, the first of which counts the others. */
  lemma BlockSizeIsTold(t: Target, cdb: seq<Byte>)
    requires TargetSound(t) && NoAttention(t) && IsCommand(cdb, 0x1a)
    ensures var (after, plan) := Execute(t, cdb);
            && after == t && plan.Complete? && plan.status == Good && |plan.dataIn| == Min(cdb[4], 12)
            && (cdb[4] >= 12 ==>
                  && plan.dataIn[0] == 12 - 1 && plan.dataIn[3] == 8 && Number(plan.dataIn[9..]) == BlockSize(t)
                  && (plan.dataIn[2] == 0x80 <==> t.CdromTarget?))
  {
    var size: Word := BlockSize(t);
    WordIsNumber(size);
    var (after, plan) := Execute(t, cdb);
    if cdb[4] >= 12 {
      assert WordBytes(size)[0] == 0 && WordBytes(size)[1..] == plan.dataIn[9..];
      LeadingZero(WordBytes(size));
    }
  }

  lemma LeadingZero(bytes: seq<Byte>)
    requires |bytes| == 4 && bytes[0] == 0
    ensures Number(bytes[1..]) == Number(bytes)
  {
    assert bytes[1..][..2] == bytes[1..3] && bytes[..3][..2] == bytes[..2];
    TwoBytes(bytes[1..3]);
    TwoBytes(bytes[..2]);
    assert bytes[..3][..2] == bytes[..2];
  }

  /** A parameter list of MODE SELECT for the given size. */
  predicate AsksForSize(list: seq<Byte>, size: nat) {
    |list| == 12 && list[3] == 8 && Number(list[9..]) == size
  }

  /** MODE SELECT sets the block size to one of the two, and refuses everything else. */
  lemma BlockSizeIsSet(c: Cdrom, cdb: seq<Byte>, list: seq<Byte>)
    requires TargetSound(CdromTarget(c)) && IsCommand(cdb, 0x15) && |list| == cdb[4]
    ensures var (after, status) := CompleteDataOut(CdromTarget(c), cdb, list);
            if AsksForSize(list, 512) || AsksForSize(list, 2048)
            then after == CdromTarget(c.(blockBytes := Number(list[9..]))) && status == Good
            else after == CdromTarget(c.(sense := SenseData(5, 0x26, 0))) && status == CheckCondition
  {
    if |list| == 12 {
      var field := [0] + list[9..12];
      LeadingZero(field);
      assert field[1..] == list[9..];
      FourBytes(field);
    }
    if c.mediumBytes.Some? {
      BlocksDivide(c.mediumBytes.value);
    }
    hide Number, WordAt;
  }

  /** The command itself takes the list, of as many bytes as it says. */
  lemma ModeSelectTakesList(c: Cdrom, cdb: seq<Byte>)
    requires TargetSound(CdromTarget(c)) && c.attention.None? && IsCommand(cdb, 0x15)
    ensures if cdb[1] == 0 then ExecuteCdrom(c, cdb) == (c, ReceiveDataOut(cdb[4]))
            else Refuses(CdromTarget(c), cdb, SenseData(5, 0x24, 0))
  {
  }

  // The lock and ejection

  /** START STOP UNIT with the load bit and without start, or the drive's own command. */
  predicate AsksToEject(cdb: seq<Byte>) {
    (IsCommand(cdb, 0x1b) && cdb[4] / 2 % 2 == 1 && cdb[4] % 2 == 0) || IsCommand(cdb, 0xc4)
  }

  lemma LockIsSet(c: Cdrom, cdb: seq<Byte>)
    requires TargetSound(CdromTarget(c)) && c.attention.None? && IsCommand(cdb, 0x1e)
    ensures if cdb[2] == 0 && cdb[3] == 0 then
              ExecuteCdrom(c, cdb) == (c.(removalPrevented := cdb[4] % 2 == 1), Complete(Good, []))
            else Refuses(CdromTarget(c), cdb, SenseData(5, 0x24, 0))
  {
  }

  /** A guest ejects an unlocked drive, which then has no medium and says so; a locked one refuses. */
  lemma GuestEjects(bus: Bus, targetId: nat, lun: nat, cdb: seq<Byte>)
    requires TargetsSound(bus) && bus.transaction.None? && SlotOf(targetId, lun).Some?
    requires bus.targets[SlotOf(targetId, lun).value].Some?
    requires var t := Unit(bus, targetId, lun).target; t.CdromTarget? && t.cdrom.attention.None? && t.cdrom.mediumBytes.Some?
    requires AsksToEject(cdb)
    ensures var before := Unit(bus, targetId, lun);
            var (after, start) := StartCommand(bus, targetId, lun, cdb);
            && after.targets[SlotOf(targetId, lun).value].Some?
            && var unit := Unit(after, targetId, lun);
            if before.target.cdrom.removalPrevented then
              && start == Ok(Finished(CheckCondition)) && unit.backing == before.backing
              && unit.target == WithSense(before.target, SenseData(5, 0x53, 0x02))
            else
              && start == Ok(Finished(Good)) && unit.backing == Removable(None)
              && !Ready(unit.target) && WhyNotReady(unit.target) == SenseData(2, 0x3a, 0) && NoAttention(unit.target)
              && SenseOf(unit.target) == SenseOf(before.target)
  {
    assert Consistent(Unit(bus, targetId, lun));
    hide MediumValid;
  }

  /** The host ejects a drive on an idle bus unless it is locked; force lifts the lock.  The next command is told. */
  lemma HostEjects(bus: Bus, targetId: nat, lun: nat, force: bool)
    requires TargetsSound(bus) && SlotOf(targetId, lun).Some? && bus.targets[SlotOf(targetId, lun).value].Some?
    requires Unit(bus, targetId, lun).target.CdromTarget?
    ensures var before := Unit(bus, targetId, lun);
            var locked := before.target.cdrom.removalPrevented;
            var result := EjectByHost(bus, targetId, lun, force);
            && (result.Ok? <==> before.backing != Removable(None) && !Busy(bus) && (force || !locked))
            && (result.Ok? ==>
                  && result.value.targets[SlotOf(targetId, lun).value].Some?
                  && var unit := Unit(result.value, targetId, lun);
                  && unit.backing == Removable(None) && unit.target.CdromTarget? && !Ready(unit.target)
                  && unit.target.cdrom.attention == Some(SenseData(6, 0x28, 0))
                  && (unit.target.cdrom.removalPrevented <==> locked && !force))
  {
    assert Consistent(Unit(bus, targetId, lun));
    hide MediumValid;
  }

  /** A medium goes into an empty drive on an idle bus, and the next command is told. */
  lemma HostInserts(bus: Bus, targetId: nat, lun: nat, medium: seq<Byte>)
    requires TargetsSound(bus) && SlotOf(targetId, lun).Some? && bus.targets[SlotOf(targetId, lun).value].Some?
    requires Unit(bus, targetId, lun).target.CdromTarget?
    ensures var before := Unit(bus, targetId, lun);
            var result := InsertMedium(bus, targetId, lun, medium);
            && (result.Ok? <==> before.backing == Removable(None) && !Busy(bus) && MediumValid(|medium|))
            && (result.Ok? ==>
                  && result.value.targets[SlotOf(targetId, lun).value].Some?
                  && var unit := Unit(result.value, targetId, lun);
                  && unit.backing == Removable(Some(medium)) && unit.target.CdromTarget?
                  && unit.target.cdrom.started && unit.target.cdrom.mediumBytes == Some(|medium|)
                  && unit.target.cdrom.attention == Some(SenseData(6, 0x28, 0)))
  {
    assert Consistent(Unit(bus, targetId, lun));
    hide MediumValid;
  }

  // Attaching

  /** A target with storage takes a free slot exactly if the storage suits it, and no other slot changes. */
  lemma TargetIsAttached(bus: Bus, targetId: nat, lun: nat, target: Target, storage: seq<Byte>)
    ensures var result := Attach(bus, targetId, lun, target, storage);
            var suits := if target.DiskTarget? then |storage| == target.disk.blockCount * DISK_BLOCK else MediumValid(|storage|);
            && (result.Ok? <==> suits && targetId < 8 && lun < 8 && bus.targets[targetId * 8 + lun].None?)
            && (result.Ok? ==>
                  && result.value.targets[targetId * 8 + lun].Some?
                  && result.value == bus.(targets := bus.targets[targetId * 8 + lun := result.value.targets[targetId * 8 + lun]])
                  && var unit := result.value.targets[targetId * 8 + lun].value;
                  if target.DiskTarget? then unit == Attachment(target, Fixed(storage))
                  else
                    && unit.backing == Removable(Some(storage))
                    && unit.target == CdromTarget(target.cdrom.(mediumBytes := Some(|storage|), started := true)))
  {
    hide MediumValid;
  }

  // What the targets are

  /** INQUIRY tells a disk from a removable CD-ROM drive, at any time. */
  lemma KindIsTold(t: Target, cdb: seq<Byte>)
    requires TargetSound(t) && IsCommand(cdb, 0x12)
    ensures var (after, plan) := Execute(t, cdb);
            && after == t && plan.Complete? && plan.status == Good && |plan.dataIn| == Min(cdb[4], 36)
            && (cdb[4] >= 36 ==>
                  && plan.dataIn[0] == (if t.DiskTarget? then 0x00 else 0x05)
                  && plan.dataIn[1] == (if t.DiskTarget? then 0x00 else 0x80)
                  && plan.dataIn[2] == 1 && plan.dataIn[3] == 1 && plan.dataIn[4] == 36 - 5)
  {
    hide Ready;
  }

  /** The commands that both targets know, and those of one of them only. */
  predicate Knows(t: Target, opcode: Byte) {
    || opcode in {0x00, 0x03, 0x08, 0x12, 0x1a, 0x1b, 0x25, 0x28, 0x2a}
    || (t.DiskTarget? && opcode in {0x0a, 0x37})
    || (t.CdromTarget? && opcode in {0x15, 0x1e, 0x43, 0xc4, 0xc9})
  }

  /** A command that is unknown, empty or too short is refused, and the sense tells which. */
  lemma MalformedIsRefused(t: Target, cdb: seq<Byte>)
    requires TargetSound(t) && NoAttention(t)
    requires cdb == [] || !Knows(t, cdb[0]) || !IsCommand(cdb, cdb[0])
    ensures Refuses(t, cdb, if cdb != [] && !Knows(t, cdb[0]) then SenseData(5, 0x20, 0) else SenseData(5, 0x24, 0))
  {
  }

  /** READ TOC in format 0 tells of one data track and the end it starts at, by block or by minute. */
  lemma TocIsTold(c: Cdrom, cdb: seq<Byte>)
    requires TargetSound(CdromTarget(c)) && c.attention.None? && IsCommand(cdb, 0x43)
    ensures var (after, plan) := ExecuteCdrom(c, cdb);
            if cdb[2] % 0x10 != 0 || cdb[6] > 1 then Refuses(CdromTarget(c), cdb, SenseData(5, 0x24, 0))
            else if !Ready(CdromTarget(c)) then Refuses(CdromTarget(c), cdb, WhyNotReady(CdromTarget(c)))
            else
              && after == c && plan.Complete? && plan.status == Good && |plan.dataIn| == Min(Number(cdb[7..9]), 12)
              && (Number(cdb[7..9]) >= 12 ==>
                    && Number(plan.dataIn[..2]) == 12 - 2 && plan.dataIn[2] == 1 && plan.dataIn[3] == 1
                    && plan.dataIn[5] == 0x14 && plan.dataIn[6] == 1
                    && plan.dataIn[8..] == (if cdb[1] / 2 % 2 == 1 then [0, 0, 2, 0] else [0, 0, 0, 0]))
  {
    TwoBytes(cdb[7..9]);
    var start := if cdb[1] / 2 % 2 == 1 then [0, 0, 2, 0] else [0, 0, 0, 0];
    TocBytes(start, Count10(cdb));
    assert ExecuteCdrom(c, cdb) == ReadToc(c, cdb);
    hide Number, MediumValid, Truncated;
  }

  lemma TocBytes(start: seq<Byte>, allocation: nat)
    requires |start| == 4
    ensures var data := Truncated([0, 10, 1, 1, 0, 0x14, 1, 0] + start, allocation);
            && |data| == Min(allocation, 12)
            && (allocation >= 12 ==>
                  && Number(data[..2]) == 12 - 2 && data[2] == 1 && data[3] == 1 && data[5] == 0x14 && data[6] == 1
                  && data[8..] == start)
  {
    var whole: seq<Byte> := [0, 10, 1, 1, 0, 0x14, 1, 0] + start;
    assert whole[..12] == whole && whole[8..] == start;
    TwoBytes(whole[..2]);
    hide Number;
  }

  /** READ DEFECT DATA tells that the list in the format asked for is empty. */
  lemma NoDefectsAreTold(d: Disk, cdb: seq<Byte>)
    requires IsCommand(cdb, 0x37) && d.ready && cdb[2] in {0x10, 0x14, 0x15}
    requires cdb[1] % 0x20 == 0 && cdb[3..7] == [0, 0, 0, 0] && cdb[9] == 0
    ensures var (after, plan) := ExecuteDisk(d, cdb);
            && after == d && plan.Complete? && plan.status == Good && |plan.dataIn| == Min(Number(cdb[7..9]), 4)
            && (Number(cdb[7..9]) >= 4 ==> plan.dataIn[1] == cdb[2] && Number(plan.dataIn[2..]) == 0)
  {
    TwoBytes(cdb[7..9]);
    assert cdb[3] == cdb[3..7][0] && cdb[4] == cdb[3..7][1] && cdb[5] == cdb[3..7][2] && cdb[6] == cdb[3..7][3];
    var plan := ExecuteDisk(d, cdb).1;
    if plan.Complete? && |plan.dataIn| == 4 {
      TwoBytes(plan.dataIn[2..]);
    }
    hide Number;
  }

  // Failing storage

  /** A chunk that the storage does not give or take ends the transfer, moves nothing, and the target says why. */
  lemma FailureIsTold(bus: Bus, maximum: nat, supply: seq<Byte>)
    requires TransactionSound(bus) && bus.transaction.Some? && maximum > 0
    ensures var failed := (WithTarget(bus.(transaction := None), bus.transaction.value.slot,
                                      WithSense(bus.targets[bus.transaction.value.slot].value.target, SenseData(4, 0x44, 0))),
                           Ended([], CheckCondition));
            && (bus.transaction.value.transfer.StorageIn? ==>
                  forall accept :: TransferIn(bus, maximum, accept, false) == failed)
            && (bus.transaction.value.transfer.StorageOut? ==>
                  TransferOut(bus, maximum, Some(supply), false) == failed)
  {
  }
}
