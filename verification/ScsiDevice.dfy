/**
 The SCSI bus as the emulator holds it: drives that it reaches through their methods,
 the storage behind them, the active transfer and the connection, changed in place.
 Each method leaves the value that the function of the same operation gives, on every
 path, including the failing ones.
 */
module ScsiDevice {
  import opened Options
  import opened Words
  import opened ScsiTargets
  import opened ScsiDrive
  import opened ScsiBus
  import opened ScsiConnection
  import opened ScsiSnapshot
  import opened ScsiRun

  class SharedBus {
    const devices: array<Option<Device>>
    const backings: array<Backing>
    var transaction: Option<Transaction>
    var connection: Option<Connection>

    /** No drive is in two slots. */
    predicate Valid()
      reads devices
    {
      && devices.Length == SLOTS && backings.Length == SLOTS
      && forall i, j :: 0 <= i < j < SLOTS && devices[i].Some? && devices[j].Some? ==> devices[i] != devices[j]
    }

    ghost function Disks(): set<DiskDrive>
      reads devices
    {
      set i | 0 <= i < devices.Length && devices[i].Some? && devices[i].value.DiskDevice? :: devices[i].value.disk
    }

    ghost function Cdroms(): set<CdromDrive>
      reads devices
    {
      set i | 0 <= i < devices.Length && devices[i].Some? && devices[i].value.CdromDevice? :: devices[i].value.cdrom
    }

    function At(slot: nat): Option<Attachment>
      requires slot < devices.Length && slot < backings.Length
      reads devices, backings, Disks(), Cdroms()
    {
      if devices[slot].None? then None else Some(Attachment(devices[slot].value.Value(), backings[slot]))
    }

    function Targets(): (targets: Registry)
      requires Valid()
      reads devices, backings, Disks(), Cdroms()
      ensures forall slot :: 0 <= slot < SLOTS ==> targets[slot] == At(slot)
    {
      seq(64, i requires 0 <= i < 64 && devices.Length == 64 && backings.Length == 64
                reads devices, backings, Disks(), Cdroms() => At(i))
    }

    function Value(): Bus
      requires Valid()
      reads this, devices, backings, Disks(), Cdroms()
    {
      Bus(Targets(), transaction, connection)
    }

    constructor ()
      ensures Valid() && fresh(devices) && fresh(backings) && Value() == EMPTY_BUS
    {
      devices := new Option<Device>[64](_ => None);
      backings := new Backing[64](_ => Removable(None));
      transaction, connection := None, None;
      new;
      assert Targets() == seq(64, _ => None);
    }

    // The slots

    method SetBacking(slot: nat, backing: Backing)
      requires Valid() && slot < SLOTS && devices[slot].Some?
      modifies backings
      ensures Value() == WithBacking(old(Value()), slot, backing)
    {
      backings[slot] := backing;
      SlotChanged(slot);
    }

    /** A change of one drive and its storage is a change of its slot. */
    twostate lemma SlotChanged(slot: nat)
      requires old(Valid()) && Valid() && slot < SLOTS && unchanged(devices) && devices[slot].Some?
      requires forall i :: 0 <= i < SLOTS && i != slot ==> backings[i] == old(backings[i])
      requires forall i :: 0 <= i < SLOTS && i != slot && devices[i].Some? ==>
                 devices[i].value.Value() == old(devices[i].value.Value())
      ensures Targets() == old(Targets())[slot := At(slot)]
    {
    }

    method ExecuteOn(slot: nat, cdb: seq<Byte>) returns (plan: Plan)
      requires Valid() && slot < SLOTS && devices[slot].Some? && TargetSound(devices[slot].value.Value())
      modifies Disks(), Cdroms()
      ensures Value() == WithTarget(old(Value()), slot, Execute(old(devices[slot].value.Value()), cdb).0)
      ensures plan == Execute(old(devices[slot].value.Value()), cdb).1
    {
      hide ExecuteDisk, ExecuteCdrom;
      match devices[slot].value {
        case DiskDevice(disk) =>
          plan := disk.Execute(cdb);
        case CdromDevice(cdrom) =>
          plan := cdrom.Execute(cdb);
      }
      SlotChanged(slot);
    }

    // Attaching

    /** A target comes to the bus once, with the storage its kind needs. */
    method AttachDrive(targetId: nat, lun: nat, device: Device, storage: seq<Byte>) returns (error: Option<MediaError>)
      requires Valid() && forall i :: 0 <= i < SLOTS && devices[i].Some? ==> devices[i].value != device
      modifies devices, backings, if device.CdromDevice? then {device.cdrom} else {}
      ensures Valid()
      ensures error.None? ==> Attach(old(Value()), targetId, lun, old(device.Value()), storage) == Ok(Value())
      ensures error.Some? ==> Attach(old(Value()), targetId, lun, old(device.Value()), storage) == Error(error.value)
      ensures error.Some? ==> Value() == old(Value()) && device.Value() == old(device.Value())
      ensures Disks() <= old(Disks()) + (if device.DiskDevice? then {device.disk} else {})
      ensures Cdroms() <= old(Cdroms()) + (if device.CdromDevice? then {device.cdrom} else {})
    {
      hide MediumValid;
      match device {
        case DiskDevice(disk) =>
          if disk.blockCount * DISK_BLOCK != |storage| {
            return Some(SizeMismatch);
          }
          error := Place(targetId, lun, device, Fixed(storage));
        case CdromDevice(_) =>
          if !MediumValid(|storage|) {
            return Some(InvalidMedium);
          }
          error := Place(targetId, lun, device, Removable(Some(storage)));
      }
    }

    method Place(targetId: nat, lun: nat, device: Device, backing: Backing) returns (error: Option<MediaError>)
      requires Valid() && forall i :: 0 <= i < SLOTS && devices[i].Some? ==> devices[i].value != device
      modifies devices, backings, if device.CdromDevice? then {device.cdrom} else {}
      ensures Valid()
      ensures error.None? ==> AttachBacking(old(Value()), targetId, lun, old(device.Value()), backing) == Ok(Value())
      ensures error.Some? ==> AttachBacking(old(Value()), targetId, lun, old(device.Value()), backing) == Error(error.value)
      ensures error.Some? ==> Value() == old(Value()) && device.Value() == old(device.Value())
      ensures Disks() <= old(Disks()) + (if device.DiskDevice? then {device.disk} else {})
      ensures Cdroms() <= old(Cdroms()) + (if device.CdromDevice? then {device.cdrom} else {})
    {
      var slot := SlotOf(targetId, lun);
      if slot.None? {
        return Some(BadAddress);
      }
      if devices[slot.value].Some? {
        return Some(Occupied);
      }
      if backing.Removable? {
        if device.DiskDevice? {
          return Some(NotRemovable);
        }
        if backing.slot.Some? {
          device.cdrom.MediumInserted(|backing.slot.value|, ColdAttach);
        } else {
          device.cdrom.MediumRemoved(ColdAttach);
        }
      }
      devices[slot.value] := Some(device);
      backings[slot.value] := backing;
      assert forall i :: 0 <= i < SLOTS && i != slot.value ==> At(i) == old(At(i));
      assert Targets() == old(Targets())[slot.value := At(slot.value)];
      return None;
    }

    // Media

    method InsertMedium(targetId: nat, lun: nat, medium: seq<Byte>) returns (error: Option<MediaError>)
      requires Valid()
      modifies Disks(), Cdroms(), backings
      ensures error.None? ==> ScsiBus.InsertMedium(old(Value()), targetId, lun, medium) == Ok(Value())
      ensures error.Some? ==> ScsiBus.InsertMedium(old(Value()), targetId, lun, medium) == Error(error.value)
      ensures error.Some? ==> Value() == old(Value())
    {
      hide MediumValid;
      var slot := SlotOf(targetId, lun);
      if slot.None? {
        return Some(BadAddress);
      }
      if devices[slot.value].None? {
        return Some(NoTarget);
      }
      if backings[slot.value].Fixed? {
        return Some(NotRemovable);
      }
      if backings[slot.value].slot.Some? {
        return Some(MediumAlreadyPresent);
      }
      if connection.Some? || transaction.Some? {
        return Some(BusBusy);
      }
      if devices[slot.value].value.DiskDevice? {
        return Some(NotRemovable);
      }
      if !MediumValid(|medium|) {
        return Some(InvalidMedium);
      }
      backings[slot.value] := Removable(Some(medium));
      devices[slot.value].value.cdrom.MediumInserted(|medium|, External);
      SlotChanged(slot.value);
      return None;
    }

    method EjectMedium(targetId: nat, lun: nat, force: bool) returns (error: Option<MediaError>)
      requires Valid()
      modifies Disks(), Cdroms(), backings
      ensures error.None? ==> EjectByHost(old(Value()), targetId, lun, force) == Ok(Value())
      ensures error.Some? ==> EjectByHost(old(Value()), targetId, lun, force) == Error(error.value)
      ensures error.Some? ==> Value() == old(Value())
    {
      var slot := SlotOf(targetId, lun);
      if slot.None? {
        return Some(BadAddress);
      }
      if devices[slot.value].None? {
        return Some(NoTarget);
      }
      if backings[slot.value].Fixed? {
        return Some(NotRemovable);
      }
      if backings[slot.value].slot.None? {
        return Some(MediumNotPresent);
      }
      if connection.Some? || transaction.Some? {
        return Some(BusBusy);
      }
      if devices[slot.value].value.DiskDevice? {
        return Some(NotRemovable);
      }
      var drive := devices[slot.value].value.cdrom;
      if drive.removalPrevented && !force {
        return Some(RemovalPrevented);
      }
      backings[slot.value] := Removable(None);
      if force {
        drive.AllowRemoval();
      }
      drive.MediumRemoved(External);
      SlotChanged(slot.value);
      return None;
    }

    method EjectGuestMedium(slot: nat) returns (start: Start)
      requires Valid() && slot < SLOTS && devices[slot].Some?
      modifies Disks(), Cdroms(), backings
      ensures (Value(), start) == EjectByGuest(old(Value()), slot)
    {
      if backings[slot].Fixed? {
        return Finished(CheckCondition);
      }
      if backings[slot].slot.None? {
        return Finished(Good);
      }
      backings[slot] := Removable(None);
      if devices[slot].value.CdromDevice? {
        devices[slot].value.cdrom.MediumRemoved(GuestCommand);
      }
      SlotChanged(slot);
      return Finished(Good);
    }

    // Commands

    method CompleteTargetStorage(slot: nat, succeeded: bool) returns (status: Status)
      requires Valid() && slot < SLOTS && devices[slot].Some?
      modifies Disks(), Cdroms(), backings
      ensures (Value(), status) == FinishStorage(old(Value()), slot, succeeded)
    {
      match devices[slot].value {
        case DiskDevice(disk) =>
          status := disk.StorageCompleted(succeeded);
        case CdromDevice(cdrom) =>
          status := cdrom.StorageCompleted(succeeded);
      }
      SlotChanged(slot);
    }

    method CompleteTargetDataOut(slot: nat, cdb: seq<Byte>, data: seq<Byte>) returns (status: Status)
      requires Valid() && slot < SLOTS && devices[slot].Some?
      modifies Disks(), Cdroms()
      ensures Value() == WithTarget(old(Value()), slot, CompleteDataOut(old(devices[slot].value.Value()), cdb, data).0)
      ensures status == CompleteDataOut(old(devices[slot].value.Value()), cdb, data).1
    {
      hide CompleteModeSelect;
      match devices[slot].value {
        case DiskDevice(_) =>
          status := CheckCondition;
        case CdromDevice(cdrom) =>
          status := cdrom.DataOutCompleted(cdb, data);
      }
      SlotChanged(slot);
    }

    method StartStorageTransfer(slot: nat, offset: nat, count: nat, input: bool) returns (start: Start)
      requires Valid() && slot < SLOTS && devices[slot].Some?
      modifies Disks(), Cdroms(), backings, this`transaction
      ensures (Value(), start) == StartStorage(old(Value()), slot, offset, count, input)
    {
      hide FinishStorage;
      if count == 0 {
        var status := CompleteTargetStorage(slot, true);
        return Finished(status);
      }
      if !InRange(backings[slot], offset, count) {
        var status := CompleteTargetStorage(slot, false);
        return Finished(status);
      }
      if input {
        transaction := Some(Transaction(slot, StorageIn(offset, count)));
        return StartedIn(count);
      }
      transaction := Some(Transaction(slot, StorageOut(offset, count)));
      return StartedOut(count);
    }

    method Dispatch(slot: nat, cdb: seq<Byte>, plan: Plan) returns (start: Start)
      requires Valid() && slot < SLOTS && devices[slot].Some?
      modifies Disks(), Cdroms(), backings, this`transaction
      ensures (Value(), start) == CarryOut(old(Value()), slot, cdb, plan)
    {
      hide StartStorage, EjectByGuest, CompleteDataOut, WithTarget;
      match plan {
        case Complete(status, reply) =>
          if reply == [] {
            return Finished(status);
          }
          transaction := Some(Transaction(slot, Immediate(reply, 0, status)));
          return StartedIn(|reply|);
        case ReadStorage(offset, count) =>
          start := StartStorageTransfer(slot, offset, count, true);
        case WriteStorage(offset, count) =>
          start := StartStorageTransfer(slot, offset, count, false);
        case ReceiveDataOut(count) =>
          if count == 0 {
            var status := CompleteTargetDataOut(slot, cdb, []);
            return Finished(status);
          }
          transaction := Some(Transaction(slot, TargetOut(cdb, [], count)));
          return StartedOut(count);
        case EjectMedium =>
          start := EjectGuestMedium(slot);
      }
    }

    method StartCommand(targetId: nat, lun: nat, cdb: seq<Byte>) returns (result: Result<Start, BusError>)
      requires Valid() && TargetsSound(Value())
      modifies Disks(), Cdroms(), backings, this`transaction
      ensures (Value(), result) == ScsiBus.StartCommand(old(Value()), targetId, lun, cdb)
    {
      hide Execute, CarryOut, TargetSound;
      var slot := SlotOf(targetId, lun);
      if slot.None? {
        return Error(InvalidAddress);
      }
      if transaction.Some? {
        return Error(TransactionActive);
      }
      if devices[slot.value].None? {
        return Ok(SelectionTimeout);
      }
      assert Consistent(Value().targets[slot.value].value);
      var plan := ExecuteOn(slot.value, cdb);
      var start := Dispatch(slot.value, cdb, plan);
      return Ok(start);
    }

    method CancelTransaction()
      requires Valid()
      modifies this`transaction, this`connection
      ensures Value() == ScsiBus.CancelTransaction(old(Value()))
    {
      transaction, connection := None, None;
    }

    // Transfers

    method TransferDataIn(maximum: nat, accept: bool, works: bool) returns (chunk: Chunk)
      requires Valid() && TransactionSound(Value())
      modifies Disks(), Cdroms(), backings, this`transaction
      ensures (Value(), chunk) == TransferIn(old(Value()), maximum, accept, works)
    {
      if maximum == 0 {
        return Refused(EmptyDataBuffer);
      }
      if transaction.None? {
        return Refused(NoDataInTransaction);
      }
      match transaction.value.transfer {
        case Immediate(reply, next, status) =>
          var end := Min(next + maximum, |reply|);
          if !accept {
            return Rejected(reply[next..end]);
          }
          if end == |reply| {
            transaction := None;
            return Ended(reply[next..end], status);
          }
          transaction := Some(transaction.value.(transfer := Immediate(reply, end, status)));
          return More(reply[next..end], |reply| - end);
        case StorageIn(offset, remaining) =>
          chunk := StorageDataIn(maximum, accept, works);
        case _ =>
          return Refused(NoDataInTransaction);
      }
    }

    method StorageDataIn(maximum: nat, accept: bool, works: bool) returns (chunk: Chunk)
      requires Valid() && TransactionSound(Value()) && maximum > 0
      requires transaction.Some? && transaction.value.transfer.StorageIn?
      modifies Disks(), Cdroms(), backings, this`transaction
      ensures (Value(), chunk) == TransferIn(old(Value()), maximum, accept, works)
    {
      hide FinishStorage, ReadMedium;
      var slot, t := transaction.value.slot, transaction.value.transfer;
      var count := Min(maximum, t.remaining);
      var bytes := ReadMedium(backings[slot], t.offset, count, works);
      if bytes.None? {
        transaction := None;
        var status := CompleteTargetStorage(slot, false);
        return Ended([], status);
      }
      if !accept {
        return Rejected(bytes.value);
      }
      if t.remaining == count {
        transaction := None;
        var status := CompleteTargetStorage(slot, true);
        return Ended(bytes.value, status);
      }
      transaction := Some(transaction.value.(transfer := StorageIn(t.offset + count, t.remaining - count)));
      return More(bytes.value, t.remaining - count);
    }

    method TransferDataOut(maximum: nat, supply: Option<seq<Byte>>, works: bool) returns (chunk: Chunk)
      requires Valid() && TransactionSound(Value())
      modifies Disks(), Cdroms(), backings, this`transaction
      ensures (Value(), chunk) == TransferOut(old(Value()), maximum, supply, works)
    {
      hide FinishStorage, WriteMedium, CompleteDataOut;
      if maximum == 0 {
        return Refused(EmptyDataBuffer);
      }
      if transaction.None? {
        return Refused(NoDataOutTransaction);
      }
      match transaction.value.transfer {
        case StorageOut(offset, remaining) =>
          if supply.None? {
            return Rejected([]);
          }
          chunk := StorageDataOut(maximum, supply.value, works);
        case TargetOut(cdb, received, remaining) =>
          if supply.None? {
            return Rejected([]);
          }
          chunk := TargetDataOut(maximum, supply.value, works);
        case _ =>
          return Refused(NoDataOutTransaction);
      }
    }

    method StorageDataOut(maximum: nat, fill: seq<Byte>, works: bool) returns (chunk: Chunk)
      requires Valid() && TransactionSound(Value()) && maximum > 0
      requires transaction.Some? && transaction.value.transfer.StorageOut?
      modifies Disks(), Cdroms(), backings, this`transaction
      ensures (Value(), chunk) == TransferOut(old(Value()), maximum, Some(fill), works)
    {
      hide FinishStorage, WriteMedium, WithBacking, Filled;
      var slot, t := transaction.value.slot, transaction.value.transfer;
      var count := Min(maximum, t.remaining);
      var bytes := Filled(fill, count);
      var written := WriteMedium(backings[slot], t.offset, bytes, works);
      if written.None? {
        transaction := None;
        var status := CompleteTargetStorage(slot, false);
        return Ended([], status);
      }
      SetBacking(slot, written.value);
      assert Value() == WithBacking(old(Value()), slot, written.value);
      BackingLeavesTransfer(old(Value()), slot, written.value);
      if t.remaining == count {
        transaction := None;
        var status := CompleteTargetStorage(slot, true);
        return Ended(bytes, status);
      }
      transaction := Some(transaction.value.(transfer := StorageOut(t.offset + count, t.remaining - count)));
      return More(bytes, t.remaining - count);
    }

    method TargetDataOut(maximum: nat, fill: seq<Byte>, works: bool) returns (chunk: Chunk)
      requires Valid() && TransactionSound(Value()) && maximum > 0
      requires transaction.Some? && transaction.value.transfer.TargetOut?
      modifies Disks(), Cdroms(), backings, this`transaction
      ensures (Value(), chunk) == TransferOut(old(Value()), maximum, Some(fill), works)
    {
      hide CompleteDataOut, Filled;
      var slot, t := transaction.value.slot, transaction.value.transfer;
      var count := Min(maximum, t.remaining);
      var bytes := Filled(fill, count);
      if t.remaining != count {
        transaction := Some(transaction.value.(transfer := TargetOut(t.cdb, t.received + bytes, t.remaining - count)));
        return More(bytes, t.remaining - count);
      }
      transaction := None;
      var status := CompleteTargetDataOut(slot, t.cdb, t.received + bytes);
      return Ended(bytes, status);
    }

    // Information phases

    method ObserveTransferResult(chunk: Chunk)
      requires Valid()
      modifies this`connection
      ensures Value() == Observe(old(Value()), chunk)
    {
      if chunk.Ended? && connection.Some? {
        connection := Some(connection.value.(status := chunk.status));
        connection := Some(connection.value.(phase := StatusPhase));
      }
    }

    method SelectTarget(targetId: nat, attention: bool) returns (result: Result<bool, BusError>)
      requires Valid()
      modifies this`connection
      ensures (Value(), result) == Select(old(Value()), targetId, attention)
    {
      hide Present, Targets;
      if connection.Some? || transaction.Some? {
        return Error(InvalidPhase);
      }
      if !Present(Value(), targetId) {
        return Ok(false);
      }
      connection := Some(Connection(targetId, 0, false, if attention then MessageOut else Command, Command,
                                    [], [], [], 0, Good));
      assert Targets() == old(Targets());
      return Ok(true);
    }

    method ReadByte(works: bool) returns (result: Result<Option<Byte>, BusError>)
      requires Valid() && Sound(Value())
      modifies Disks(), Cdroms(), backings, this`transaction, this`connection
      ensures (Value(), result) == ReadInformation(old(Value()), works)
    {
      assert TransactionSound(Value());
      hide TransferIn, Sound;
      if connection.None? {
        return Error(InvalidPhase);
      }
      var c := connection.value;
      match c.phase {
        case DataIn =>
          var chunk := TransferDataIn(1, true, works);
          if chunk.Refused? {
            return Error(chunk.error);
          }
          ObserveTransferResult(chunk);
          var moved := if chunk.Rejected? then [] else chunk.moved;
          return Ok(if moved == [] then None else Some(moved[0]));
        case StatusPhase =>
          connection := Some(c.(phase := MessageIn, messageIn := [0], messageOffset := 0));
          return Ok(Some(StatusByte(c.status)));
        case MessageIn =>
          if c.messageOffset >= |c.messageIn| {
            return Error(InvalidPhase);
          }
          connection := Some(c.(messageOffset := c.messageOffset + 1));
          return Ok(Some(c.messageIn[c.messageOffset]));
        case _ =>
          return Error(InvalidPhase);
      }
    }

    method Acknowledge(attention: bool)
      requires Valid()
      modifies this`connection
      ensures Value() == AcknowledgeMessage(old(Value()), attention)
    {
      if connection.None? || connection.value.phase != MessageIn {
        return;
      }
      var c := connection.value;
      if attention {
        connection := Some(c.(messageIn := [], messageOffset := 0, phase := MessageOut));
      } else if c.messageOffset == |c.messageIn| {
        if c.messageIn == [0] {
          connection := None;
        } else {
          connection := Some(c.(messageIn := [], messageOffset := 0, phase := c.returnPhase));
        }
      }
    }

    /** The messages in the buffer, heard one after the other. */
    method FinishMessages()
      requires Valid() && connection.Some?
      modifies this`transaction, this`connection
      ensures Value() == FinishMessageOut(old(Value()))
    {
      hide Parse, Targets;
      var bytes := connection.value.messageOut;
      connection := Some(connection.value.(messageOut := []));
      if bytes == [6] {
        CancelTransaction();
        assert Targets() == old(Targets());
        return;
      }
      var m := HearMessages(bytes, connection.value.lun, connection.value.identified);
      connection := Some(connection.value.(lun := m.lun, identified := m.identified));
      if m.reply == [] {
        connection := Some(connection.value.(phase := connection.value.returnPhase));
      } else {
        connection := Some(connection.value.(messageIn := m.reply, messageOffset := 0, phase := MessageIn));
      }
      assert Targets() == old(Targets());
    }

    method RaiseAttention()
      requires Valid()
      modifies this`connection
      ensures Value() == AssertAttention(old(Value()))
    {
      if connection.None? || connection.value.phase == MessageIn || connection.value.phase == MessageOut {
        return;
      }
      connection := Some(connection.value.(returnPhase := connection.value.phase));
      connection := Some(connection.value.(phase := MessageOut, messageOut := []));
    }

    method SetConnectionStatus(status: Status)
      requires Valid()
      modifies this`connection
      ensures Value() == SetStatus(old(Value()), status)
    {
      if connection.Some? {
        connection := Some(connection.value.(status := status, phase := StatusPhase));
      }
    }

    /** The unsupported-unit reply, given by the first unit the target has. */
    method RespondForMissingUnit(cdb: seq<Byte>)
      requires Valid() && connection.Some? && connection.value.targetId < 8 && |cdb| >= 6
      modifies this`transaction, this`connection
      ensures Value() == MissingUnit(old(Value()), cdb)
    {
      hide FixedSense, FirstUnit, Targets;
      ghost var bus := Value();
      var reply := [];
      if cdb[0] == 0x12 {
        reply := Truncated([0x7f, 0, 0, 0, 31] + seq(31, _ => 0), cdb[4]);
      } else if cdb[0] == 0x03 {
        reply := FixedSense(SenseData(5, 0x25, 0), cdb[4]);
      } else {
        SetConnectionStatus(CheckCondition);
        return;
      }
      hide Truncated;
      if reply == [] {
        SetConnectionStatus(Good);
        return;
      }
      var slot := FindUnit(connection.value.targetId * 8);
      assert Targets() == bus.targets && Value() == bus;
      transaction := Some(Transaction(slot, Immediate(reply, 0, Good)));
      connection := Some(connection.value.(phase := DataIn));
      assert Targets() == bus.targets;
    }

    method FindUnit(from: nat) returns (slot: nat)
      requires Valid() && from <= SLOTS
      ensures slot == FirstUnit(Value(), from)
    {
      slot := from;
      while slot < SLOTS && devices[slot].None?
        invariant from <= slot <= SLOTS
        invariant FirstUnit(Value(), from) == FirstUnit(Value(), slot)
      {
        slot := slot + 1;
      }
    }

    method ExecuteConnectedCommand() returns (result: Result<bool, BusError>)
      requires Valid() && TargetsSound(Value()) && connection.Some? && connection.value.targetId < 8
      requires |connection.value.cdb| >= 6
      modifies Disks(), Cdroms(), backings, this`transaction, this`connection
      ensures (Value(), result) == ExecuteConnected(old(Value()))
    {
      hide TargetsSound, ScsiBus.StartCommand, MissingUnit;
      connection := Some(connection.value.(lun := UnitOf(connection.value)));
      var c := connection.value;
      assert Value() == Connected(old(Value()), c);
      SameTargetsSound(old(Value()), Value());
      var started := StartCommand(c.targetId, c.lun, c.cdb);
      match started {
        case Error(e) =>
          return Error(e);
        case Ok(Finished(status)) =>
          SetConnectionStatus(status);
        case Ok(StartedIn(_)) =>
          connection := Some(c.(phase := DataIn));
        case Ok(StartedOut(_)) =>
          connection := Some(c.(phase := DataOut));
        case Ok(SelectionTimeout) =>
          connection := Some(c);
          RespondForMissingUnit(c.cdb);
      }
      return Ok(true);
    }

    method WriteByte(value: Byte, last: bool, works: bool) returns (result: Result<bool, BusError>)
      requires Valid() && Sound(Value())
      modifies Disks(), Cdroms(), backings, this`transaction, this`connection
      ensures (Value(), result) == WriteInformation(old(Value()), value, last, works)
    {
      hide TransferOut, FinishMessageOut, ExecuteConnected, TargetsSound, TransactionSound, CdbLength;
      if connection.None? {
        return Error(InvalidPhase);
      }
      var c := connection.value;
      match c.phase {
        case MessageOut =>
          if |c.messageOut| == MESSAGE_LIMIT {
            return Error(InvalidPhase);
          }
          connection := Some(c.(messageOut := c.messageOut + [value]));
          if last {
            FinishMessages();
          }
          return Ok(true);
        case Command =>
          if |c.cdb| == 16 {
            return Error(InvalidPhase);
          }
          connection := Some(c.(cdb := c.cdb + [value]));
          if |connection.value.cdb| == CdbLength(connection.value.cdb[0]) {
            SameTargetsSound(old(Value()), Value());
            result := ExecuteConnectedCommand();
            return;
          }
          return Ok(true);
        case DataOut =>
          var chunk := TransferDataOut(1, Some([value]), works);
          if chunk.Refused? {
            return Error(chunk.error);
          }
          ObserveTransferResult(chunk);
          return Ok((chunk.More? || chunk.Ended?) && |chunk.moved| == 1);
        case _ =>
          return Error(InvalidPhase);
      }
    }

    // Snapshots

    method CaptureSnapshot() returns (s: Snapshot)
      requires Valid()
      ensures s == TakeSnapshot(Value())
    {
      var entries := [];
      var slot := SLOTS;
      while slot > 0
        invariant 0 <= slot <= SLOTS
        invariant entries == EntriesFrom(Value().targets, slot)
      {
        slot := slot - 1;
        if devices[slot].Some? {
          entries := [Entry(slot / 8, slot % 8, devices[slot].value.Value())] + entries;
        }
      }
      return Snapshot(entries, transaction, connection);
    }

    /** All checks come before the first change, so a refused snapshot changes nothing. */
    method RestoreSnapshot(s: Snapshot) returns (accepted: bool)
      requires Valid()
      modifies Disks(), Cdroms(), backings, this`transaction, this`connection
      ensures accepted ==> Restore(old(Value()), s) == Ok(Value())
      ensures !accepted ==> Restore(old(Value()), s).Error? && Value() == old(Value())
    {
      hide TransactionAccepted, Present, ConnectionFits, AllAccept, Restored, Gather;
      var states := GatherStates(s.targets);
      if states.None? {
        return false;
      }
      var valid := CheckSlots(states.value);
      if !valid {
        return false;
      }
      if s.transaction.Some? && !TransactionAccepted(Value(), states.value, s.transaction.value) {
        return false;
      }
      if s.connection.Some?
         && (!Present(Value(), s.connection.value.targetId) || !ConnectionFits(s.connection.value)) {
        return false;
      }
      var restored := CommitSlots(states.value);
      if !restored {
        assert false;
        return false;
      }
      transaction, connection := s.transaction, s.connection;
      return true;
    }

    method CheckSlots(states: States) returns (valid: bool)
      requires Valid()
      ensures valid <==> AllAccept(Value().targets, states)
    {
      hide SlotAccepts;
      for slot := 0 to SLOTS
        invariant forall i :: 0 <= i < slot ==> SlotAccepts(Value().targets[i], states[i])
      {
        if !SlotAccepts(At(slot), states[slot]) {
          assert !SlotAccepts(Value().targets[slot], states[slot]);
          return false;
        }
      }
      return true;
    }

    /** The drive takes the state, or leaves everything as it is. */
    method RestoreAt(slot: nat, state: Target) returns (restored: bool)
      requires Valid() && slot < SLOTS && devices[slot].Some?
      modifies Disks(), Cdroms()
      ensures restored <==> AcceptsSnapshot(old(devices[slot].value.Value()), state)
      ensures Targets() == if restored then old(Targets())[slot := Some(Attachment(state, backings[slot]))] else old(Targets())
    {
      restored := false;
      if devices[slot].value.DiskDevice? && state.DiskTarget? {
        restored := devices[slot].value.disk.RestoreState(state.disk);
      } else if devices[slot].value.CdromDevice? && state.CdromTarget? {
        restored := devices[slot].value.cdrom.RestoreState(state.cdrom);
      }
      SlotChanged(slot);
    }

    /** Every target checks its state once more as it takes it; after validation none refuses. */
    method CommitSlots(states: States) returns (restored: bool)
      requires Valid() && AllAccept(Value().targets, states)
      modifies Disks(), Cdroms(), backings
      ensures restored && Targets() == Restored(old(Targets()), states)
    {
      ghost var before := Targets();
      for slot := 0 to SLOTS
        invariant forall i :: 0 <= i < slot ==> Targets()[i] == RestoredSlot(before[i], states[i])
        invariant forall i :: slot <= i < SLOTS ==> Targets()[i] == before[i]
      {
        assert SlotAccepts(before[slot], states[slot]);
        if devices[slot].Some? && states[slot].Some? {
          var state := states[slot].value;
          assert Targets()[slot] == before[slot];
          if backings[slot].Removable? && BelievedSize(state).None? {
            SetBacking(slot, Removable(None));
            assert At(slot) == Targets()[slot];
          }
          assert At(slot) == Some(RestoredSlot(before[slot], states[slot]).value.(target := before[slot].value.target));
          var accepted := RestoreAt(slot, state);
          if !accepted {
            assert false;
            return false;
          }
          assert Targets()[slot] == RestoredSlot(before[slot], states[slot]);
        }
      }
      assert Targets() == Restored(before, states);
      return true;
    }
  }

  /** What a string of messages asks for, one message at a time. */
  method HearMessages(bytes: seq<Byte>, lun: nat, identified: bool) returns (m: Messages)
    ensures m == Parse(bytes, Messages(lun, identified, []))
  {
    m := Messages(lun, identified, []);
    var offset, stop := 0, false;
    assert bytes[0..] == bytes;
    while offset < |bytes| && !stop
      invariant 0 <= offset <= |bytes|
      invariant Parse(bytes, Messages(lun, identified, [])) == if stop then m else Parse(bytes[offset..], m)
      decreases |bytes| - offset, !stop
    {
      var here := bytes[offset..];
      if here[0] >= 0x80 {
        m, offset := m.(lun := here[0] % 8, identified := true), offset + 1;
      } else if here[0] == 1 && |here| >= 5 && here[1] == 3 && here[2] == 1 {
        m, offset := m.(reply := m.reply + [1, 3, 1, here[3], 0]), offset + 5;
      } else if here[0] == 7 || here[0] == 8 {
        offset := offset + 1;
      } else {
        m, stop := m.(reply := m.reply + [7]), true;
      }
    }
  }

  /** The states by slot, or nothing for a bad or repeated address. */
  method GatherStates(entries: seq<Entry>) returns (states: Option<States>)
    ensures states == Gather(entries, seq(64, _ => None))
  {
    var gathered: States := seq(64, _ => None);
    var i := 0;
    while i < |entries|
      invariant 0 <= i <= |entries|
      invariant Gather(entries, seq(64, _ => None)) == Gather(entries[i..], gathered)
    {
      assert entries[i..][0] == entries[i] && entries[i..][1..] == entries[i + 1..];
      var slot := SlotOf(entries[i].targetId, entries[i].lun);
      if slot.None? || gathered[slot.value].Some? {
        return None;
      }
      gathered := gathered[slot.value := Some(entries[i].state)];
      i := i + 1;
    }
    return Some(gathered);
  }

  lemma SameTargetsSound(bus: Bus, after: Bus)
    requires TargetsSound(bus) && after.targets == bus.targets
    ensures TargetsSound(after)
  {
  }

  lemma BackingLeavesTransfer(bus: Bus, slot: nat, backing: Backing)
    requires slot < SLOTS && bus.targets[slot].Some?
    ensures WithBacking(bus, slot, backing).transaction == bus.transaction
    ensures WithBacking(bus, slot, backing).connection == bus.connection
    ensures WithBacking(bus, slot, backing).targets[slot].Some?
  {
  }
}
