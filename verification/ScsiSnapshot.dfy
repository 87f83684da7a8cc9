/**
 Snapshots of the bus: protocol state without storage.  A snapshot is restored as a
 whole or not at all, and a bus accepts another one's snapshot exactly when it has
 the same targets and holds every medium that the snapshot needs.
 */
module ScsiSnapshot {
  import opened Arithmetic
  import opened Options
  import opened Words
  import opened ScsiTargets
  import opened ScsiBus

  datatype Entry = Entry(targetId: nat, lun: nat, state: Target)

  datatype Snapshot = Snapshot(targets: seq<Entry>, transaction: Option<Transaction>, connection: Option<Connection>)

  type States = s: seq<Option<Target>> | |s| == 64 witness seq(64, _ => None)

  // Taking a snapshot

  function EntriesFrom(targets: Registry, slot: nat): seq<Entry>
    requires slot <= SLOTS
    decreases SLOTS - slot
  {
    if slot == SLOTS then []
    else
      (if targets[slot].None? then [] else [Entry(slot / 8, slot % 8, targets[slot].value.target)])
      + EntriesFrom(targets, slot + 1)
  }

  function TakeSnapshot(bus: Bus): Snapshot {
    Snapshot(EntriesFrom(bus.targets, 0), bus.transaction, bus.connection)
  }

  // Validating one

  /** The states by slot; a bad or repeated address spoils the snapshot. */
  function Gather(entries: seq<Entry>, states: States): Option<States>
    decreases |entries|
  {
    if entries == [] then Some(states)
    else
      var slot := SlotOf(entries[0].targetId, entries[0].lun);
      if slot.None? || states[slot.value].Some? then None
      else Gather(entries[1..], states[slot.value := Some(entries[0].state)])
  }

  function BackingAccepts(backing: Backing, state: Target): bool {
    match (backing, state)
    case (Fixed(medium), DiskTarget(d)) => |medium| == d.blockCount * DISK_BLOCK
    case (Removable(slot), CdromTarget(c)) =>
      c.mediumBytes.Some? ==> slot.Some? && |slot.value| == c.mediumBytes.value
    case _ => false
  }

  predicate SlotAccepts(a: Option<Attachment>, state: Option<Target>) {
    match (a, state)
    case (None, None) => true
    case (Some(attachment), Some(t)) => AcceptsSnapshot(attachment.target, t) && BackingAccepts(attachment.backing, t)
    case _ => false
  }

  predicate AllAccept(targets: Registry, states: States) {
    forall i :: 0 <= i < SLOTS ==> SlotAccepts(targets[i], states[i])
  }

  /** The medium a slot will hold once the snapshot is in force. */
  function SizeAfter(a: Attachment, state: Option<Target>): Option<nat> {
    if state.Some? && state.value.CdromTarget? then state.value.cdrom.mediumBytes else BackingSize(a.backing)
  }

  predicate TransferAccepted(t: Transfer, size: Option<nat>) {
    match t
    case Immediate(reply, next, _) => next < |reply|
    case StorageIn(offset, remaining) => remaining != 0 && size.Some? && offset + remaining <= size.value
    case StorageOut(offset, remaining) => remaining != 0 && size.Some? && offset + remaining <= size.value
    case TargetOut(cdb, received, remaining) =>
      cdb != [] && |cdb| <= 16 && remaining != 0 && |received| + remaining <= U64_MAX
  }

  predicate TransactionAccepted(bus: Bus, states: States, t: Transaction) {
    && t.slot < SLOTS && bus.targets[t.slot].Some?
    && TransferAccepted(t.transfer, SizeAfter(bus.targets[t.slot].value, states[t.slot]))
  }

  predicate Valid(bus: Bus, s: Snapshot, states: States) {
    && AllAccept(bus.targets, states)
    && (s.transaction.Some? ==> TransactionAccepted(bus, states, s.transaction.value))
    && (s.connection.Some? ==> Present(bus, s.connection.value.targetId) && ConnectionFits(s.connection.value))
  }

  // Restoring it

  /** The storage stays, unless the snapshot knows of no medium. */
  function RestoredSlot(a: Option<Attachment>, state: Option<Target>): Option<Attachment> {
    if a.None? || state.None? then a
    else
      var backing := if a.value.backing.Removable? && BelievedSize(state.value).None? then Removable(None)
                     else a.value.backing;
      Some(Attachment(state.value, backing))
  }

  function Restored(targets: Registry, states: States): Registry {
    seq(SLOTS, i requires 0 <= i < SLOTS => RestoredSlot(targets[i], states[i]))
  }

  function Restore(bus: Bus, s: Snapshot): Result<Bus, ()> {
    var states := Gather(s.targets, seq(64, _ => None));
    if states.None? || !Valid(bus, s, states.value) then Error(())
    else Ok(Bus(Restored(bus.targets, states.value), s.transaction, s.connection))
  }

  // A restored bus is sound

  lemma RestoredSlotConsistent(a: Attachment, state: Target)
    requires Consistent(a) && SlotAccepts(Some(a), Some(state))
    ensures var after := RestoredSlot(Some(a), Some(state)).value;
            Consistent(after) && after.target == state && BackingSize(after.backing) == SizeAfter(a, Some(state))
  {
    hide MediumValid;
  }

  lemma RestoreIsSound(bus: Bus, s: Snapshot)
    requires Sound(bus) && Restore(bus, s).Ok?
    ensures Sound(Restore(bus, s).value)
  {
    var states := Gather(s.targets, seq(64, _ => None)).value;
    var after := Restore(bus, s).value;
    forall i | 0 <= i < SLOTS && after.targets[i].Some?
      ensures Consistent(after.targets[i].value)
    {
      assert SlotAccepts(bus.targets[i], states[i]);
      RestoredSlotConsistent(bus.targets[i].value, states[i].value);
    }
    if s.transaction.Some? {
      var slot := s.transaction.value.slot;
      assert SlotAccepts(bus.targets[slot], states[slot]);
      RestoredSlotConsistent(bus.targets[slot].value, states[slot].value);
    }
    if s.connection.Some? {
      var id := s.connection.value.targetId;
      assert Present(bus, id);
      var slot :| id * 8 <= slot < id * 8 + 8 && bus.targets[slot].Some?;
      assert after.targets[slot].Some?;
    }
  }

  // A snapshot of one bus restored on another

  /** The states that a snapshot of a bus holds. */
  function StatesOf(targets: Registry): States {
    seq(SLOTS, i requires 0 <= i < SLOTS => if targets[i].None? then None else Some(targets[i].value.target))
  }

  /** The states from a slot on, with nothing before it taken into account. */
  predicate GatheredUpTo(targets: Registry, states: States, slot: nat) {
    forall i :: 0 <= i < SLOTS ==> states[i] == if i < slot then StatesOf(targets)[i] else None
  }

  lemma {:induction false} GatherEntries(targets: Registry, states: States, slot: nat)
    requires slot <= SLOTS && GatheredUpTo(targets, states, slot)
    ensures Gather(EntriesFrom(targets, slot), states) == Some(StatesOf(targets))
    decreases SLOTS - slot
  {
    if slot == SLOTS {
      assert states == StatesOf(targets);
    } else if targets[slot].None? {
      GatherEntries(targets, states, slot + 1);
      assert [] + EntriesFrom(targets, slot + 1) == EntriesFrom(targets, slot + 1);
    } else {
      var entry := Entry(slot / 8, slot % 8, targets[slot].value.target);
      var rest := EntriesFrom(targets, slot + 1);
      assert ([entry] + rest)[1..] == rest;
      GatherEntries(targets, states[slot := Some(entry.state)], slot + 1);
    }
  }

  /** The same kind of target; a disk of the same size, or a drive that holds the medium needed. */
  predicate Compatible(cold: Option<Attachment>, kept: Option<Attachment>) {
    match (cold, kept)
    case (None, None) => true
    case (Some(Attachment(DiskTarget(c), _)), Some(Attachment(DiskTarget(k), _))) => c.blockCount == k.blockCount
    case (Some(Attachment(CdromTarget(c), _)), Some(Attachment(CdromTarget(k), _))) =>
      k.mediumBytes.None? || c.mediumBytes == k.mediumBytes
    case _ => false
  }

  predicate AllCompatible(cold: Registry, kept: Registry) {
    forall i :: 0 <= i < SLOTS ==> Compatible(cold[i], kept[i])
  }

  predicate CommandRestorable(bus: Bus) {
    bus.transaction.Some? && bus.transaction.value.transfer.TargetOut? ==>
      |bus.transaction.value.transfer.cdb| <= 16
  }

  lemma CompatibleIsAccepted(cold: Option<Attachment>, kept: Option<Attachment>)
    requires cold.Some? ==> Consistent(cold.value)
    requires kept.Some? ==> Consistent(kept.value)
    ensures SlotAccepts(cold, if kept.None? then None else Some(kept.value.target)) <==> Compatible(cold, kept)
  {
    if kept.Some? {
      AcceptsItself(kept.value.target);
    }
    hide MediumValid;
  }

  lemma AcceptedAll(cold: Registry, kept: Registry)
    requires forall i :: 0 <= i < SLOTS && cold[i].Some? ==> Consistent(cold[i].value)
    requires forall i :: 0 <= i < SLOTS && kept[i].Some? ==> Consistent(kept[i].value)
    ensures AllAccept(cold, StatesOf(kept)) <==> AllCompatible(cold, kept)
  {
    hide SlotAccepts, Compatible, Consistent;
    forall i | 0 <= i < SLOTS
      ensures SlotAccepts(cold[i], StatesOf(kept)[i]) <==> Compatible(cold[i], kept[i])
    {
      CompatibleIsAccepted(cold[i], kept[i]);
    }
  }

  /** The active transfer and the connection of a sound bus are accepted wherever its targets are. */
  lemma ActivityAccepted(kept: Bus, cold: Bus)
    requires Sound(kept) && Sound(cold) && AllCompatible(cold.targets, kept.targets)
    ensures Valid(cold, TakeSnapshot(kept), StatesOf(kept.targets)) <==> CommandRestorable(kept)
  {
    AcceptedAll(cold.targets, kept.targets);
    if kept.transaction.Some? {
      var slot := kept.transaction.value.slot;
      assert Compatible(cold.targets[slot], kept.targets[slot]);
      assert Consistent(kept.targets[slot].value) && Consistent(cold.targets[slot].value);
      SizeKept(cold.targets[slot].value, kept.targets[slot].value);
    }
    if kept.connection.Some? {
      var id := kept.connection.value.targetId;
      assert Present(kept, id);
      var slot :| id * 8 <= slot < id * 8 + 8 && kept.targets[slot].Some?;
      assert Compatible(cold.targets[slot], kept.targets[slot]);
      assert cold.targets[slot].Some?;
    }
  }

  lemma SizeKept(cold: Attachment, kept: Attachment)
    requires Consistent(cold) && Consistent(kept) && Compatible(Some(cold), Some(kept))
    ensures SizeAfter(cold, Some(kept.target)) == BackingSize(kept.backing)
  {
  }

  /** Exactly the buses with the same targets and the media needed accept a snapshot of a sound bus. */
  lemma SnapshotAccepted(kept: Bus, cold: Bus)
    requires Sound(kept) && Sound(cold)
    ensures Restore(cold, TakeSnapshot(kept)).Ok?
       <==> AllCompatible(cold.targets, kept.targets) && CommandRestorable(kept)
  {
    GatherEntries(kept.targets, seq(64, _ => None), 0);
    AcceptedAll(cold.targets, kept.targets);
    if AllCompatible(cold.targets, kept.targets) {
      ActivityAccepted(kept, cold);
    }
  }

  /** Two buses with the same target states, and media of the same sizes. */
  predicate SameTargets(a: Registry, b: Registry) {
    forall i :: 0 <= i < SLOTS ==> SameSlot(a[i], b[i])
  }

  predicate SameSlot(a: Option<Attachment>, b: Option<Attachment>) {
    match (a, b)
    case (None, None) => true
    case (Some(x), Some(y)) => x.target == y.target && BackingSize(x.backing) == BackingSize(y.backing)
    case _ => false
  }

  /** And what they restore is all the protocol state of that bus, with media of the sizes it had. */
  lemma SnapshotRoundTrip(kept: Bus, cold: Bus) returns (after: Bus)
    requires Sound(kept) && Sound(cold)
    requires AllCompatible(cold.targets, kept.targets) && CommandRestorable(kept)
    ensures Restore(cold, TakeSnapshot(kept)) == Ok(after)
    ensures Sound(after) && SameTargets(after.targets, kept.targets)
    ensures TakeSnapshot(after) == TakeSnapshot(kept)
  {
    SnapshotAccepted(kept, cold);
    RestoreIsSound(cold, TakeSnapshot(kept));
    GatherEntries(kept.targets, seq(64, _ => None), 0);
    after := Restore(cold, TakeSnapshot(kept)).value;
    forall i | 0 <= i < SLOTS
      ensures SameSlot(after.targets[i], kept.targets[i])
    {
      assert Compatible(cold.targets[i], kept.targets[i]);
      if kept.targets[i].Some? {
        assert Consistent(kept.targets[i].value) && Consistent(after.targets[i].value);
      }
    }
    SameEntries(after.targets, kept.targets, 0);
  }

  lemma {:induction false} SameEntries(a: Registry, b: Registry, slot: nat)
    requires slot <= SLOTS
    requires SameTargets(a, b)
    ensures EntriesFrom(a, slot) == EntriesFrom(b, slot)
    decreases SLOTS - slot
  {
    if slot < SLOTS {
      assert SameSlot(a[slot], b[slot]);
      SameEntries(a, b, slot + 1);
    }
  }
}
