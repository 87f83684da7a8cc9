/**
 The two targets as records that commands change in place.  The bus of `ScsiDevice`
 holds these records and reaches its targets through their methods only.
 */
module ScsiDrive {
  import opened Options
  import opened Words
  import opened ScsiTargets

  class DiskDrive {
    const blockCount: nat
    var ready: bool
    var sense: SenseData

    function Value(): Disk
      reads this
    {
      Disk(blockCount, ready, sense)
    }

    constructor (bytes: nat)
      requires DiskSizeValid(bytes)
      ensures NewDisk(bytes) == Some(Value())
    {
      blockCount, ready, sense := bytes / DISK_BLOCK, true, NO_SENSE;
    }

    constructor InState(state: Disk)
      ensures Value() == state
    {
      blockCount, ready, sense := state.blockCount, state.ready, state.sense;
    }

    method Refuse(reason: SenseData) returns (plan: Plan)
      modifies this`sense
      ensures (Value(), plan) == RefuseDisk(old(Value()), reason)
    {
      sense := reason;
      return REFUSED;
    }

    method Transfer(write: bool, lba: nat, count: nat) returns (plan: Plan)
      modifies this`sense
      ensures (Value(), plan) == DiskTransfer(old(Value()), write, lba, count)
    {
      if !ready {
        plan := Refuse(NOT_READY);
      } else if count == 0 {
        return REPLY_GOOD;
      } else if lba + count > blockCount {
        plan := Refuse(LBA_OUT_OF_RANGE);
      } else if write {
        return WriteStorage(lba * DISK_BLOCK, count * DISK_BLOCK);
      } else {
        return ReadStorage(lba * DISK_BLOCK, count * DISK_BLOCK);
      }
    }

    method ReadDefectData(cdb: seq<Byte>) returns (plan: Plan)
      requires |cdb| >= 10
      modifies this`sense
      ensures (Value(), plan) == ReadDefects(old(Value()), cdb)
    {
      hide Truncated, Count10;
      if !ready {
        plan := Refuse(NOT_READY);
        return;
      }
      var selector := cdb[2];
      var format := selector % 8;
      var supported := selector / 0x20 == 0 && selector / 0x10 % 2 == 1 && (format == 0 || format == 4 || format == 5);
      var others := cdb[1] % 0x20 == 0 && cdb[9] == 0;
      var i := 3;
      while i < 7 && others
        invariant 3 <= i <= 7
        invariant others <==>
                  && cdb[1] % 0x20 == 0 && cdb[9] == 0
                  && (i > 3 ==> cdb[3] == 0) && (i > 4 ==> cdb[4] == 0) && (i > 5 ==> cdb[5] == 0) && (i > 6 ==> cdb[6] == 0)
      {
        others := cdb[i] == 0;
        i := i + 1;
      }
      if !supported || !others {
        plan := Refuse(INVALID_CDB_FIELD);
        return;
      }
      return Complete(Good, Truncated([0, selector, 0, 0], Count10(cdb)));
    }

    method Execute(cdb: seq<Byte>) returns (plan: Plan)
      modifies this
      ensures (Value(), plan) == ExecuteDisk(old(Value()), cdb)
    {
      hide DiskTransfer, ReadDefects, FixedSense, Inquiry, ModeSense, Capacity, WordAt, Lba6, Count6, Count10;
      if cdb == [] {
        plan := Refuse(INVALID_CDB_FIELD);
        return;
      }
      if DiskLength(cdb[0]) == 0 {
        plan := Refuse(UNSUPPORTED_OPCODE);
        return;
      }
      if |cdb| < DiskLength(cdb[0]) {
        plan := Refuse(INVALID_CDB_FIELD);
        return;
      }
      match cdb[0] {
        case 0x00 =>
          if ready {
            return REPLY_GOOD;
          }
          plan := Refuse(NOT_READY);
        case 0x03 =>
          plan := Complete(Good, FixedSense(sense, cdb[4]));
          sense := NO_SENSE;
        case 0x08 =>
          plan := Transfer(false, Lba6(cdb), Count6(cdb));
        case 0x0a =>
          plan := Transfer(true, Lba6(cdb), Count6(cdb));
        case 0x12 =>
          return Complete(Good, Inquiry([0, 0], "SGI-EMU VIRTUAL DISK    0001", cdb[4]));
        case 0x1a =>
          return Complete(Good, ModeSense(0, DISK_BLOCK, cdb[4]));
        case 0x1b =>
          ready := cdb[4] % 2 == 1;
          return REPLY_GOOD;
        case 0x25 =>
          if ready {
            return Complete(Good, Capacity((blockCount - 1) % MAX_BLOCKS, DISK_BLOCK));
          }
          plan := Refuse(NOT_READY);
        case 0x28 =>
          plan := Transfer(false, WordAt(cdb, 2), Count10(cdb));
        case 0x2a =>
          plan := Transfer(true, WordAt(cdb, 2), Count10(cdb));
        case _ =>
          plan := ReadDefectData(cdb);
      }
    }

    method StorageCompleted(succeeded: bool) returns (status: Status)
      modifies this`sense
      ensures (DiskTarget(Value()), status) == CompleteStorage(DiskTarget(old(Value())), succeeded)
    {
      if succeeded {
        return Good;
      }
      sense := HOST_IO_ERROR;
      return CheckCondition;
    }

    /** A refused state leaves the disk as it is. */
    method RestoreState(state: Disk) returns (restored: bool)
      modifies this
      ensures restored <==> AcceptsSnapshot(DiskTarget(old(Value())), DiskTarget(state))
      ensures Value() == if restored then state else old(Value())
    {
      if state.blockCount != blockCount {
        return false;
      }
      ready, sense := state.ready, state.sense;
      return true;
    }
  }

  class CdromDrive {
    var mediumBytes: Option<nat>
    var blockBytes: nat
    var started: bool
    var removalPrevented: bool
    var attention: Option<SenseData>
    var sense: SenseData

    function Value(): Cdrom
      reads this
    {
      Cdrom(mediumBytes, blockBytes, started, removalPrevented, attention, sense)
    }

    constructor ()
      ensures Value() == EMPTY_DRIVE
    {
      mediumBytes, blockBytes, started, removalPrevented := None, 512, false, false;
      attention, sense := None, NO_SENSE;
    }

    constructor InState(state: Cdrom)
      ensures Value() == state
    {
      mediumBytes, blockBytes, started, removalPrevented :=
        state.mediumBytes, state.blockBytes, state.started, state.removalPrevented;
      attention, sense := state.attention, state.sense;
    }

    method Refuse(reason: SenseData) returns (plan: Plan)
      modifies this`sense
      ensures (Value(), plan) == RefuseCdrom(old(Value()), reason)
    {
      sense := reason;
      return REFUSED;
    }

    // The medium

    method MediumInserted(size: nat, origin: Origin)
      modifies this
      ensures Value() == Inserted(old(Value()), size, origin)
    {
      mediumBytes := Some(size);
      started := true;
      if origin == External {
        attention := Some(MEDIUM_CHANGED);
      }
    }

    /** A forced ejection lifts the removal lock. */
    method AllowRemoval()
      modifies this`removalPrevented
      ensures Value() == old(Value()).(removalPrevented := false)
    {
      removalPrevented := false;
    }

    method MediumRemoved(origin: Origin)
      modifies this
      ensures Value() == Removed(old(Value()), origin)
    {
      mediumBytes := None;
      started := false;
      if origin == External {
        attention := Some(MEDIUM_CHANGED);
      }
    }

    // Commands

    method ReadBlocks(lba: nat, count: nat) returns (plan: Plan)
      requires blockBytes > 0
      modifies this`sense
      ensures (Value(), plan) == CdromRead(old(Value()), lba, count)
    {
      if mediumBytes.None? {
        plan := Refuse(MEDIUM_NOT_PRESENT);
      } else if !started {
        plan := Refuse(NOT_READY);
      } else if count == 0 {
        return REPLY_GOOD;
      } else if lba + count > mediumBytes.value / blockBytes {
        plan := Refuse(LBA_OUT_OF_RANGE);
      } else {
        return ReadStorage(lba * blockBytes, count * blockBytes);
      }
    }

    method ReadCapacity() returns (plan: Plan)
      requires BlockSizeSupported(blockBytes)
      modifies this`sense
      ensures (Value(), plan) == CdromCapacity(old(Value()))
    {
      hide Capacity;
      if mediumBytes.None? {
        plan := Refuse(MEDIUM_NOT_PRESENT);
        return;
      }
      if !started {
        plan := Refuse(NOT_READY);
        return;
      }
      var blocks := mediumBytes.value / blockBytes;
      if blocks == 0 || blocks > MAX_BLOCKS {
        plan := Refuse(LBA_OUT_OF_RANGE);
        return;
      }
      return Complete(Good, Capacity(blocks - 1, blockBytes));
    }

    method RequestRemoval() returns (plan: Plan)
      modifies this`sense
      ensures (Value(), plan) == RequestEjection(old(Value()))
    {
      if mediumBytes.None? {
        return REPLY_GOOD;
      }
      if removalPrevented {
        plan := Refuse(MEDIUM_REMOVAL_PREVENTED);
        return;
      }
      return EjectMedium;
    }

    method StartOrStop(control: Byte) returns (plan: Plan)
      modifies this
      ensures (Value(), plan) == StartStop(old(Value()), control)
    {
      hide RequestEjection;
      var loadEject, start := control / 2 % 2 == 1, control % 2 == 1;
      if !loadEject {
        started := start;
        return REPLY_GOOD;
      }
      if start {
        started := true;
        return REPLY_GOOD;
      }
      plan := RequestRemoval();
    }

    method PreventOrAllow(cdb: seq<Byte>) returns (plan: Plan)
      requires |cdb| >= 6
      modifies this
      ensures (Value(), plan) == PreventAllow(old(Value()), cdb)
    {
      if cdb[2] != 0 || cdb[3] != 0 {
        plan := Refuse(INVALID_CDB_FIELD);
        return;
      }
      removalPrevented := cdb[4] % 2 == 1;
      return REPLY_GOOD;
    }

    method ReadContents(cdb: seq<Byte>) returns (plan: Plan)
      requires |cdb| >= 10
      modifies this`sense
      ensures (Value(), plan) == ReadToc(old(Value()), cdb)
    {
      hide Truncated, Count10;
      if cdb[2] % 0x10 != 0 || cdb[6] > 1 {
        plan := Refuse(INVALID_CDB_FIELD);
        return;
      }
      if mediumBytes.None? {
        plan := Refuse(MEDIUM_NOT_PRESENT);
        return;
      }
      if !started {
        plan := Refuse(NOT_READY);
        return;
      }
      var start := if cdb[1] / 2 % 2 == 1 then [0, 0, 2, 0] else [0, 0, 0, 0];
      return Complete(Good, Truncated([0, 10, 1, 1, 0, 0x14, 1, 0] + start, Count10(cdb)));
    }

    method Command(cdb: seq<Byte>) returns (plan: Plan)
      requires BlockSizeSupported(blockBytes) && cdb != [] && |cdb| >= CdromLength(cdb[0]) > 0
      modifies this
      ensures (Value(), plan) == CdromCommand(old(Value()), cdb)
    {
      hide CdromRead, CdromCapacity, RequestEjection, StartStop, PreventAllow, ReadToc, FixedSense, Inquiry, ModeSense,
        WordAt, Lba6, Count6, Count10;
      match cdb[0] {
        case 0x00 =>
          var reason := Unready(Value());
          if reason.None? {
            return REPLY_GOOD;
          }
          plan := Refuse(reason.value);
        case 0x03 =>
          plan := Complete(Good, FixedSense(sense, cdb[4]));
          sense := NO_SENSE;
        case 0x08 =>
          plan := ReadBlocks(Lba6(cdb), Count6(cdb));
        case 0x12 =>
          return Complete(Good, Inquiry([5, 0x80], "SGI-EMU VIRTUAL CD-ROM  0001", cdb[4]));
        case 0x15 =>
          if cdb[1] == 0 {
            return ReceiveDataOut(cdb[4]);
          }
          plan := Refuse(INVALID_CDB_FIELD);
        case 0x1a =>
          return Complete(Good, ModeSense(0x80, blockBytes, cdb[4]));
        case 0x1b =>
          plan := StartOrStop(cdb[4]);
        case 0x1e =>
          plan := PreventOrAllow(cdb);
        case 0x25 =>
          plan := ReadCapacity();
        case 0x28 =>
          plan := ReadBlocks(WordAt(cdb, 2), Count10(cdb));
        case 0x2a =>
          plan := Refuse(WRITE_PROTECTED);
        case 0x43 =>
          plan := ReadContents(cdb);
        case 0xc4 =>
          plan := RequestRemoval();
        case _ =>
          return REPLY_GOOD;
      }
    }

    method Execute(cdb: seq<Byte>) returns (plan: Plan)
      requires BlockSizeSupported(blockBytes)
      modifies this
      ensures (Value(), plan) == ExecuteCdrom(old(Value()), cdb)
    {
      hide CdromCommand;
      if cdb == [] {
        plan := Refuse(INVALID_CDB_FIELD);
        return;
      }
      if cdb[0] != 0x12 && cdb[0] != 0x03 && attention.Some? {
        var reason := attention.value;
        attention := None;
        plan := Refuse(reason);
        return;
      }
      if CdromLength(cdb[0]) == 0 {
        plan := Refuse(UNSUPPORTED_OPCODE);
      } else if |cdb| < CdromLength(cdb[0]) {
        plan := Refuse(INVALID_CDB_FIELD);
      } else {
        plan := Command(cdb);
      }
    }

    method StorageCompleted(succeeded: bool) returns (status: Status)
      modifies this`sense
      ensures (CdromTarget(Value()), status) == CompleteStorage(CdromTarget(old(Value())), succeeded)
    {
      if succeeded {
        return Good;
      }
      sense := HOST_IO_ERROR;
      return CheckCondition;
    }

    method DataOutCompleted(cdb: seq<Byte>, data: seq<Byte>) returns (status: Status)
      modifies this
      ensures (CdromTarget(Value()), status) == CompleteDataOut(CdromTarget(old(Value())), cdb, data)
    {
      hide CompleteModeSelect;
      if cdb != [] && cdb[0] == 0x15 {
        status := TakeModeParameters(cdb, data);
        return;
      }
      sense := INVALID_CDB_FIELD;
      return CheckCondition;
    }

    method TakeModeParameters(cdb: seq<Byte>, data: seq<Byte>) returns (status: Status)
      modifies this
      ensures (Value(), status) == CompleteModeSelect(old(Value()), cdb, data)
    {
      hide WordAt;
      if |cdb| < 6 || cdb[4] != |data| || |data| != 12 || data[3] != 8 {
        sense := INVALID_PARAMETER_LIST;
        return CheckCondition;
      }
      var bytes := WordAt([0] + data[9..12], 0);
      if !BlockSizeSupported(bytes) || (mediumBytes.Some? && mediumBytes.value % bytes != 0) {
        sense := INVALID_PARAMETER_LIST;
        return CheckCondition;
      }
      blockBytes := bytes;
      return Good;
    }

    /** A refused state leaves the drive as it is. */
    method RestoreState(state: Cdrom) returns (restored: bool)
      modifies this
      ensures restored <==> AcceptsSnapshot(CdromTarget(old(Value())), CdromTarget(state))
      ensures Value() == if restored then state else old(Value())
    {
      if !BlockSizeSupported(state.blockBytes) {
        return false;
      }
      if state.mediumBytes.Some?
         && !(mediumBytes == state.mediumBytes && state.mediumBytes.value % state.blockBytes == 0) {
        return false;
      }
      mediumBytes, blockBytes, started := state.mediumBytes, state.blockBytes, state.started;
      removalPrevented, attention, sense := state.removalPrevented, state.attention, state.sense;
      return true;
    }
  }

  /** What a bus slot holds. */
  datatype Device = DiskDevice(disk: DiskDrive) | CdromDevice(cdrom: CdromDrive)
  {
    function Value(): Target
      reads if DiskDevice? then {disk as object} else {cdrom}
    {
      if DiskDevice? then DiskTarget(disk.Value()) else CdromTarget(cdrom.Value())
    }
  }
}
