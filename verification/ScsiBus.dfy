/**
 The SCSI bus without its information phases: attached targets with their storage,
 removable media, commands, and the one active transfer.  A removable medium is held
 twice, as storage by the bus and as a size by the target; `Sound` says that the two
 agree and that an active transfer lies inside the storage it moves.
 */
module ScsiBus {
  import opened Arithmetic
  import opened Options
  import opened Words
  import opened ScsiTargets

  const SLOTS: nat := 64

  /** The storage behind a target: always there, or a slot that may be empty. */
  datatype Backing = Fixed(medium: seq<Byte>) | Removable(slot: Option<seq<Byte>>)

  datatype Attachment = Attachment(target: Target, backing: Backing)

  datatype Transfer =
    | Immediate(reply: seq<Byte>, next: nat, finalStatus: Status)
    | StorageIn(offset: nat, remaining: nat)
    | StorageOut(offset: nat, remaining: nat)
    | TargetOut(cdb: seq<Byte>, received: seq<Byte>, remaining: nat)

  datatype Transaction = Transaction(slot: nat, transfer: Transfer)

  datatype Phase = DataOut | DataIn | Command | StatusPhase | MessageOut | MessageIn

  datatype Connection = Connection(
    targetId: nat,
    lun: nat,
    identified: bool,
    phase: Phase,
    returnPhase: Phase,
    cdb: seq<Byte>,
    messageOut: seq<Byte>,
    messageIn: seq<Byte>,
    messageOffset: nat,
    status: Status)

  type Registry = s: seq<Option<Attachment>> | |s| == 64 witness seq(64, _ => None)

  datatype Bus = Bus(targets: Registry, transaction: Option<Transaction>, connection: Option<Connection>)

  const EMPTY_BUS := Bus(seq(64, _ => None), None, None)

  datatype BusError =
    | InvalidAddress
    | TransactionActive
    | NoDataInTransaction
    | NoDataOutTransaction
    | EmptyDataBuffer
    | InvalidPhase

  datatype MediaError =
    | BadAddress
    | Occupied
    | SizeMismatch
    | InvalidMedium
    | NotRemovable
    | NoTarget
    | MediumAlreadyPresent
    | MediumNotPresent
    | RemovalPrevented
    | BusBusy

  function SlotOf(targetId: nat, lun: nat): Option<nat> {
    if targetId < 8 && lun < 8 then Some(targetId * 8 + lun) else None
  }

  function BackingSize(backing: Backing): Option<nat> {
    match backing
    case Fixed(medium) => Some(|medium|)
    case Removable(Some(medium)) => Some(|medium|)
    case Removable(None) => None
  }

  // The invariant

  /** The target's view of its medium is the bus's. */
  predicate Consistent(a: Attachment) {
    && TargetSound(a.target)
    && BelievedSize(a.target) == BackingSize(a.backing)
    && (a.target.DiskTarget? <==> a.backing.Fixed?)
  }

  predicate TransferSound(t: Transfer, a: Attachment) {
    match t
    case Immediate(reply, next, _) => next < |reply|
    case StorageIn(offset, remaining) =>
      remaining > 0 && BackingSize(a.backing).Some? && offset + remaining <= BackingSize(a.backing).value
    case StorageOut(offset, remaining) =>
      remaining > 0 && BackingSize(a.backing).Some? && offset + remaining <= BackingSize(a.backing).value
    case TargetOut(cdb, received, remaining) => cdb != [] && remaining > 0 && |received| + remaining <= U64_MAX
  }

  predicate TransactionSound(bus: Bus) {
    bus.transaction.Some? ==>
      var t := bus.transaction.value;
      t.slot < SLOTS && bus.targets[t.slot].Some? && TransferSound(t.transfer, bus.targets[t.slot].value)
  }

  predicate TargetsSound(bus: Bus) {
    forall i :: 0 <= i < SLOTS && bus.targets[i].Some? ==> Consistent(bus.targets[i].value)
  }

  predicate Present(bus: Bus, targetId: nat) {
    targetId < 8 && exists slot | targetId * 8 <= slot < targetId * 8 + 8 :: bus.targets[slot].Some?
  }

  /** A connection belongs to a target that is there, and its buffers are within their bounds. */
  predicate ConnectionFits(c: Connection) {
    && c.lun < 8 && |c.cdb| <= 16 && |c.messageOut| <= 257 && |c.messageIn| <= 257
    && c.messageOffset <= |c.messageIn|
  }

  predicate ConnectionSound(bus: Bus) {
    bus.connection.Some? ==> Present(bus, bus.connection.value.targetId) && ConnectionFits(bus.connection.value)
  }

  predicate Sound(bus: Bus) {
    TargetsSound(bus) && TransactionSound(bus) && ConnectionSound(bus)
  }

  // Attaching

  function AttachBacking(bus: Bus, targetId: nat, lun: nat, target: Target, backing: Backing): Result<Bus, MediaError> {
    var slot := SlotOf(targetId, lun);
    if slot.None? then Error(BadAddress)
    else if bus.targets[slot.value].Some? then Error(Occupied)
    else
      match (target, backing)
      case (_, Fixed(_)) => Ok(bus.(targets := bus.targets[slot.value := Some(Attachment(target, backing))]))
      case (DiskTarget(_), Removable(_)) => Error(NotRemovable)
      case (CdromTarget(c), Removable(medium)) =>
        var informed := if medium.Some? then Inserted(c, |medium.value|, ColdAttach) else Removed(c, ColdAttach);
        Ok(bus.(targets := bus.targets[slot.value := Some(Attachment(CdromTarget(informed), backing))]))
  }

  function Attach(bus: Bus, targetId: nat, lun: nat, target: Target, storage: seq<Byte>): Result<Bus, MediaError> {
    match target
    case DiskTarget(d) =>
      if d.blockCount * DISK_BLOCK != |storage| then Error(SizeMismatch)
      else AttachBacking(bus, targetId, lun, target, Fixed(storage))
    case CdromTarget(_) =>
      if !MediumValid(|storage|) then Error(InvalidMedium)
      else AttachBacking(bus, targetId, lun, target, Removable(Some(storage)))
  }

  function AttachEmpty(bus: Bus, targetId: nat, lun: nat, target: Target): Result<Bus, MediaError> {
    AttachBacking(bus, targetId, lun, target, Removable(None))
  }

  // Media

  predicate Busy(bus: Bus) {
    bus.connection.Some? || bus.transaction.Some?
  }

  function InsertMedium(bus: Bus, targetId: nat, lun: nat, medium: seq<Byte>): Result<Bus, MediaError> {
    var slot := SlotOf(targetId, lun);
    if slot.None? then Error(BadAddress)
    else if bus.targets[slot.value].None? then Error(NoTarget)
    else
      match bus.targets[slot.value].value
      case Attachment(_, Fixed(_)) => Error(NotRemovable)
      case Attachment(target, Removable(held)) =>
        if held.Some? then Error(MediumAlreadyPresent)
        else if Busy(bus) then Error(BusBusy)
        else if target.DiskTarget? then Error(NotRemovable)
        else if !MediumValid(|medium|) then Error(InvalidMedium)
        else
          var loaded := Attachment(CdromTarget(Inserted(target.cdrom, |medium|, External)), Removable(Some(medium)));
          Ok(bus.(targets := bus.targets[slot.value := Some(loaded)]))
  }

  function Ejected(c: Cdrom, force: bool): Cdrom {
    Removed(if force then c.(removalPrevented := false) else c, External)
  }

  function EjectByHost(bus: Bus, targetId: nat, lun: nat, force: bool): Result<Bus, MediaError> {
    var slot := SlotOf(targetId, lun);
    if slot.None? then Error(BadAddress)
    else if bus.targets[slot.value].None? then Error(NoTarget)
    else
      match bus.targets[slot.value].value
      case Attachment(_, Fixed(_)) => Error(NotRemovable)
      case Attachment(target, Removable(held)) =>
        if held.None? then Error(MediumNotPresent)
        else if Busy(bus) then Error(BusBusy)
        else if target.DiskTarget? then Error(NotRemovable)
        else if target.cdrom.removalPrevented && !force then Error(RemovalPrevented)
        else
          var emptied := Attachment(CdromTarget(Ejected(target.cdrom, force)), Removable(None));
          Ok(bus.(targets := bus.targets[slot.value := Some(emptied)]))
  }

  // Commands

  datatype Start = SelectionTimeout | Finished(status: Status) | StartedIn(count: nat) | StartedOut(count: nat)

  function WithTarget(bus: Bus, slot: nat, target: Target): Bus
    requires slot < SLOTS && bus.targets[slot].Some?
  {
    bus.(targets := bus.targets[slot := Some(bus.targets[slot].value.(target := target))])
  }

  function FinishStorage(bus: Bus, slot: nat, succeeded: bool): (Bus, Status)
    requires slot < SLOTS && bus.targets[slot].Some?
  {
    var (target, status) := CompleteStorage(bus.targets[slot].value.target, succeeded);
    (WithTarget(bus, slot, target), status)
  }

  predicate InRange(backing: Backing, offset: nat, count: nat) {
    BackingSize(backing).Some? && offset + count <= BackingSize(backing).value
  }

  function StartStorage(bus: Bus, slot: nat, offset: nat, count: nat, input: bool): (Bus, Start)
    requires slot < SLOTS && bus.targets[slot].Some?
  {
    if count == 0 then
      var (after, status) := FinishStorage(bus, slot, true);
      (after, Finished(status))
    else if !InRange(bus.targets[slot].value.backing, offset, count) then
      var (after, status) := FinishStorage(bus, slot, false);
      (after, Finished(status))
    else if input then (bus.(transaction := Some(Transaction(slot, StorageIn(offset, count)))), StartedIn(count))
    else (bus.(transaction := Some(Transaction(slot, StorageOut(offset, count)))), StartedOut(count))
  }

  /** The guest's own ejection: the storage goes, and the target is told. */
  function EjectByGuest(bus: Bus, slot: nat): (Bus, Start)
    requires slot < SLOTS && bus.targets[slot].Some?
  {
    match bus.targets[slot].value
    case Attachment(_, Fixed(_)) => (bus, Finished(CheckCondition))
    case Attachment(target, Removable(held)) =>
      if held.None? then (bus, Finished(Good))
      else
        var told := if target.CdromTarget? then CdromTarget(Removed(target.cdrom, GuestCommand)) else target;
        (bus.(targets := bus.targets[slot := Some(Attachment(told, Removable(None)))]), Finished(Good))
  }

  function CarryOut(bus: Bus, slot: nat, cdb: seq<Byte>, plan: Plan): (Bus, Start)
    requires slot < SLOTS && bus.targets[slot].Some?
  {
    match plan
    case Complete(status, reply) =>
      if reply == [] then (bus, Finished(status))
      else (bus.(transaction := Some(Transaction(slot, Immediate(reply, 0, status)))), StartedIn(|reply|))
    case ReadStorage(offset, count) => StartStorage(bus, slot, offset, count, true)
    case WriteStorage(offset, count) => StartStorage(bus, slot, offset, count, false)
    case ReceiveDataOut(count) =>
      if count == 0 then
        var (target, status) := CompleteDataOut(bus.targets[slot].value.target, cdb, []);
        (WithTarget(bus, slot, target), Finished(status))
      else (bus.(transaction := Some(Transaction(slot, TargetOut(cdb, [], count)))), StartedOut(count))
    case EjectMedium => EjectByGuest(bus, slot)
  }

  function StartCommand(bus: Bus, targetId: nat, lun: nat, cdb: seq<Byte>): (Bus, Result<Start, BusError>)
    requires TargetsSound(bus)
  {
    var slot := SlotOf(targetId, lun);
    if slot.None? then (bus, Error(InvalidAddress))
    else if bus.transaction.Some? then (bus, Error(TransactionActive))
    else if bus.targets[slot.value].None? then (bus, Ok(SelectionTimeout))
    else
      assert Consistent(bus.targets[slot.value].value);
      var (target, plan) := Execute(bus.targets[slot.value].value.target, cdb);
      var (after, start) := CarryOut(WithTarget(bus, slot.value, target), slot.value, cdb, plan);
      (after, Ok(start))
  }

  // Transfers

  /** The answer to one chunk, and the bytes it moved or would have moved. */
  datatype Chunk =
    | Refused(error: BusError)
    | Rejected(offered: seq<Byte>)
    | More(moved: seq<Byte>, left: nat)
    | Ended(moved: seq<Byte>, status: Status)

  /** The bytes of the medium in a range; the host storage may fail. */
  function ReadMedium(backing: Backing, offset: nat, count: nat, works: bool): Option<seq<Byte>> {
    if !works || !InRange(backing, offset, count) then None
    else
      match backing
      case Fixed(medium) => Some(medium[offset..offset + count])
      case Removable(slot) => Some(slot.value[offset..offset + count])
  }

  function Overwritten(medium: seq<Byte>, offset: nat, bytes: seq<Byte>): (r: seq<Byte>)
    requires offset + |bytes| <= |medium|
    ensures |r| == |medium|
    ensures forall i :: 0 <= i < |medium| ==> r[i] == if offset <= i < offset + |bytes| then bytes[i - offset] else medium[i]
  {
    medium[..offset] + bytes + medium[offset + |bytes|..]
  }

  function WriteMedium(backing: Backing, offset: nat, bytes: seq<Byte>, works: bool): Option<Backing> {
    if !works || !InRange(backing, offset, |bytes|) then None
    else
      match backing
      case Fixed(medium) => Some(Fixed(Overwritten(medium, offset, bytes)))
      case Removable(slot) => Some(Removable(Some(Overwritten(slot.value, offset, bytes))))
  }

  function WithBacking(bus: Bus, slot: nat, backing: Backing): Bus
    requires slot < SLOTS && bus.targets[slot].Some?
  {
    bus.(targets := bus.targets[slot := Some(bus.targets[slot].value.(backing := backing))])
  }

  function Moving(bus: Bus, transfer: Transfer): Bus
    requires bus.transaction.Some?
  {
    bus.(transaction := Some(bus.transaction.value.(transfer := transfer)))
  }

  /** At most `maximum` bytes towards the initiator; a rejected chunk changes nothing. */
  function TransferIn(bus: Bus, maximum: nat, accept: bool, works: bool): (Bus, Chunk)
    requires TransactionSound(bus)
  {
    if maximum == 0 then (bus, Refused(EmptyDataBuffer))
    else if bus.transaction.None? then (bus, Refused(NoDataInTransaction))
    else
      var slot := bus.transaction.value.slot;
      match bus.transaction.value.transfer
      case Immediate(reply, next, status) =>
        var end := Min(next + maximum, |reply|);
        if !accept then (bus, Rejected(reply[next..end]))
        else if end == |reply| then (bus.(transaction := None), Ended(reply[next..end], status))
        else (Moving(bus, Immediate(reply, end, status)), More(reply[next..end], |reply| - end))
      case StorageIn(offset, remaining) =>
        var count := Min(maximum, remaining);
        var bytes := ReadMedium(bus.targets[slot].value.backing, offset, count, works);
        if bytes.None? then
          var (after, status) := FinishStorage(bus.(transaction := None), slot, false);
          (after, Ended([], status))
        else if !accept then (bus, Rejected(bytes.value))
        else if remaining == count then
          var (after, status) := FinishStorage(bus.(transaction := None), slot, true);
          (after, Ended(bytes.value, status))
        else (Moving(bus, StorageIn(offset + count, remaining - count)), More(bytes.value, remaining - count))
      case _ => (bus, Refused(NoDataInTransaction))
  }

  /** A buffer of the given length that the initiator filled; what it left alone is zero. */
  function Filled(fill: seq<Byte>, count: nat): (r: seq<Byte>)
    ensures |r| == count
  {
    if |fill| >= count then fill[..count] else fill + seq(count - |fill|, _ => 0)
  }

  /** At most `maximum` bytes towards the target, all those the initiator supplies, or none. */
  function TransferOut(bus: Bus, maximum: nat, supply: Option<seq<Byte>>, works: bool): (Bus, Chunk)
    requires TransactionSound(bus)
  {
    if maximum == 0 then (bus, Refused(EmptyDataBuffer))
    else if bus.transaction.None? then (bus, Refused(NoDataOutTransaction))
    else
      var slot := bus.transaction.value.slot;
      match bus.transaction.value.transfer
      case StorageOut(offset, remaining) =>
        var count := Min(maximum, remaining);
        if supply.None? then (bus, Rejected([]))
        else
          var bytes := Filled(supply.value, count);
          var written := WriteMedium(bus.targets[slot].value.backing, offset, bytes, works);
          if written.None? then
            var (after, status) := FinishStorage(bus.(transaction := None), slot, false);
            (after, Ended([], status))
          else if remaining == count then
            var (after, status) :=
              FinishStorage(WithBacking(bus, slot, written.value).(transaction := None), slot, true);
            (after, Ended(bytes, status))
          else
            (Moving(WithBacking(bus, slot, written.value), StorageOut(offset + count, remaining - count)),
             More(bytes, remaining - count))
      case TargetOut(cdb, received, remaining) =>
        var count := Min(maximum, remaining);
        if supply.None? then (bus, Rejected([]))
        else
          var bytes := Filled(supply.value, count);
          if remaining == count then
            var (target, status) := CompleteDataOut(bus.targets[slot].value.target, cdb, received + bytes);
            (WithTarget(bus, slot, target).(transaction := None), Ended(bytes, status))
          else (Moving(bus, TargetOut(cdb, received + bytes, remaining - count)), More(bytes, remaining - count))
      case _ => (bus, Refused(NoDataOutTransaction))
  }

  function CancelTransaction(bus: Bus): Bus {
    bus.(transaction := None, connection := None)
  }
}
