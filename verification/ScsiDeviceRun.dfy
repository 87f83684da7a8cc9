/**
 Runs of the bus as the emulator holds it: whatever is done to it, in any order, the
 drives behind it, their storage and the transfer in progress stay consistent, and they
 are what the same run of values comes to.
 */
module ScsiDeviceRun {
  import opened Options
  import opened Words
  import opened ScsiTargets
  import opened ScsiDrive
  import opened ScsiBus
  import opened ScsiConnection
  import opened ScsiRun
  import opened ScsiDevice

  method NewDevice(target: Target) returns (device: Device)
    ensures device.DiskDevice? ==> fresh(device.disk)
    ensures device.CdromDevice? ==> fresh(device.cdrom)
    ensures device.Value() == target
  {
    if target.DiskTarget? {
      var disk := new DiskDrive.InState(target.disk);
      return DiskDevice(disk);
    } else {
      var cdrom := new CdromDrive.InState(target.cdrom);
      return CdromDevice(cdrom);
    }
  }

  /** A new drive comes to the bus. */
  method PerformAttach(bus: SharedBus, e: Event)
    requires bus.Valid() && Sound(bus.Value()) && (e.Attached? || e.AttachedEmpty?)
    modifies bus.devices, bus.backings
    ensures bus.Valid() && bus.Value() == Apply(old(bus.Value()), e)
    ensures fresh(bus.Disks() - old(bus.Disks())) && fresh(bus.Cdroms() - old(bus.Cdroms()))
  {
    hide Sound, AttachBacking;
    var device := NewDevice(e.target);
    assert bus.Targets() == old(bus.Targets());
    match e {
      case Attached(id, lun, _, storage) =>
        var _ := bus.AttachDrive(id, lun, device, storage);
      case AttachedEmpty(id, lun, _) =>
        var _ := bus.Place(id, lun, device, Removable(None));
    }
  }

  /** Everything else works on the drives that are there. */
  method PerformOperation(bus: SharedBus, e: Event)
    requires bus.Valid() && Sound(bus.Value()) && !e.Attached? && !e.AttachedEmpty?
    modifies bus, bus.Disks(), bus.Cdroms(), bus.backings
    ensures bus.Valid() && bus.Value() == Apply(old(bus.Value()), e)
    ensures bus.Disks() == old(bus.Disks()) && bus.Cdroms() == old(bus.Cdroms())
  {
    assert TargetsSound(bus.Value()) && TransactionSound(bus.Value());
    hide Sound, TargetsSound, TransactionSound, ConnectionSound, ScsiBus.InsertMedium, EjectByHost, ScsiBus.StartCommand,
      TransferIn, TransferOut, Select, WriteInformation, ReadInformation, AcknowledgeMessage, AssertAttention, SetStatus;
    match e {
      case Inserted(id, lun, medium) =>
        var _ := bus.InsertMedium(id, lun, medium);
      case Ejected(id, lun, force) =>
        var _ := bus.EjectMedium(id, lun, force);
      case Started(id, lun, cdb) =>
        var _ := bus.StartCommand(id, lun, cdb);
      case MovedIn(maximum, accept, works) =>
        var _ := bus.TransferDataIn(maximum, accept, works);
      case MovedOut(maximum, supply, works) =>
        var _ := bus.TransferDataOut(maximum, supply, works);
      case Cancelled =>
        bus.CancelTransaction();
      case Selected(id, attention) =>
        var _ := bus.SelectTarget(id, attention);
      case Wrote(value, last, works) =>
        var _ := bus.WriteByte(value, last, works);
      case ReadOne(works) =>
        var _ := bus.ReadByte(works);
      case Acknowledged(attention) =>
        bus.Acknowledge(attention);
      case AttentionRaised =>
        bus.RaiseAttention();
      case Observed(status) =>
        bus.SetConnectionStatus(status);
      case RestoredFrom(snapshot) =>
        var _ := bus.RestoreSnapshot(snapshot);
    }
  }

  /** Any run on the objects is the run of their values, and keeps them consistent. */
  method PerformAll(bus: SharedBus, events: seq<Event>)
    requires bus.Valid() && Sound(bus.Value()) && forall e :: e in events ==> Constructed(e)
    modifies bus, bus.devices, bus.backings, bus.Disks(), bus.Cdroms()
    ensures bus.Valid() && Sound(bus.Value())
    ensures bus.Value() == Run(old(bus.Value()), events)
  {
    hide Sound, Apply, Constructed;
    var i := 0;
    assert events[0..] == events;
    while i < |events|
      invariant 0 <= i <= |events|
      invariant bus.Valid() && Sound(bus.Value())
      invariant fresh(bus.Disks() - old(bus.Disks())) && fresh(bus.Cdroms() - old(bus.Cdroms()))
      invariant Run(bus.Value(), events[i..]) == Run(old(bus.Value()), events)
    {
      assert events[i..][0] == events[i] && events[i..][1..] == events[i + 1..];
      StepKeepsSound(bus.Value(), events[i]);
      if events[i].Attached? || events[i].AttachedEmpty? {
        PerformAttach(bus, events[i]);
      } else {
        PerformOperation(bus, events[i]);
      }
      i := i + 1;
    }
  }
}
