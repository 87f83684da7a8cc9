/**
 Runs of the bus: `RunKeepsSound` says that after any sequence of attachments, media
 changes by host or guest, commands, transfers, information bytes, cancellations and
 restored snapshots every target's view of its medium is the bus's own, and an active
 transfer lies inside it.
 */
module ScsiRun {
  import opened Options
  import opened Words
  import opened ScsiTargets
  import opened ScsiBus
  import opened ScsiConnection
  import opened ScsiSnapshot

  datatype Event =
    | Attached(targetId: nat, lun: nat, target: Target, storage: seq<Byte>)
    | AttachedEmpty(targetId: nat, lun: nat, target: Target)
    | Inserted(targetId: nat, lun: nat, medium: seq<Byte>)
    | Ejected(targetId: nat, lun: nat, force: bool)
    | Started(targetId: nat, lun: nat, cdb: seq<Byte>)
    | MovedIn(maximum: nat, accept: bool, works: bool)
    | MovedOut(maximum: nat, supply: Option<seq<Byte>>, works: bool)
    | Cancelled
    | Selected(targetId: nat, attention: bool)
    | Wrote(value: Byte, last: bool, works: bool)
    | ReadOne(works: bool)
    | Acknowledged(attention: bool)
    | AttentionRaised
    | Observed(status: Status)
    | RestoredFrom(snapshot: Snapshot)

  /** Targets come from their constructors, with a capacity and block size these accept. */
  predicate Constructed(e: Event) {
    (e.Attached? || e.AttachedEmpty? ==> TargetSound(e.target))
  }

  function OrSame(bus: Bus, outcome: Result<Bus, MediaError>): Bus {
    if outcome.Ok? then outcome.value else bus
  }

  function Apply(bus: Bus, e: Event): Bus
    requires Sound(bus)
  {
    match e
    case Attached(id, lun, target, storage) => OrSame(bus, Attach(bus, id, lun, target, storage))
    case AttachedEmpty(id, lun, target) => OrSame(bus, AttachEmpty(bus, id, lun, target))
    case Inserted(id, lun, medium) => OrSame(bus, InsertMedium(bus, id, lun, medium))
    case Ejected(id, lun, force) => OrSame(bus, EjectByHost(bus, id, lun, force))
    case Started(id, lun, cdb) => StartCommand(bus, id, lun, cdb).0
    case MovedIn(maximum, accept, works) => TransferIn(bus, maximum, accept, works).0
    case MovedOut(maximum, supply, works) => TransferOut(bus, maximum, supply, works).0
    case Cancelled => CancelTransaction(bus)
    case Selected(id, attention) => Select(bus, id, attention).0
    case Wrote(value, last, works) => WriteInformation(bus, value, last, works).0
    case ReadOne(works) => ReadInformation(bus, works).0
    case Acknowledged(attention) => AcknowledgeMessage(bus, attention)
    case AttentionRaised => AssertAttention(bus)
    case Observed(status) => SetStatus(bus, status)
    case RestoredFrom(snapshot) =>
      var outcome := Restore(bus, snapshot);
      if outcome.Ok? then outcome.value else bus
  }

  // Changes of one slot

  /** The bus with one slot replaced, by an attachment of the same medium size if one was there. */
  lemma SlotReplaced(bus: Bus, slot: nat, a: Attachment)
    requires Sound(bus) && slot < SLOTS && Consistent(a)
    requires bus.targets[slot].Some? && bus.transaction.Some? ==>
               BackingSize(a.backing) == BackingSize(bus.targets[slot].value.backing)
    ensures Sound(bus.(targets := bus.targets[slot := Some(a)]))
  {
    hide Consistent, ConnectionFits;
    var after := bus.(targets := bus.targets[slot := Some(a)]);
    assert TargetsSound(after);
    if bus.connection.Some? {
      PresentKept(bus, after, bus.connection.value.targetId);
    }
  }

  lemma PresentKept(bus: Bus, after: Bus, targetId: nat)
    requires Present(bus, targetId)
    requires forall i :: 0 <= i < SLOTS && bus.targets[i].Some? ==> after.targets[i].Some?
    ensures Present(after, targetId)
  {
    var slot :| targetId * 8 <= slot < targetId * 8 + 8 && bus.targets[slot].Some?;
    assert after.targets[slot].Some?;
  }

  /** A command or its completion changes a target's protocol state, never its view of the medium. */
  lemma TargetReplaced(bus: Bus, slot: nat, target: Target)
    requires Sound(bus) && slot < SLOTS && bus.targets[slot].Some?
    requires TargetSound(target) && BelievedSize(target) == BelievedSize(bus.targets[slot].value.target)
    requires target.DiskTarget? <==> bus.targets[slot].value.target.DiskTarget?
    ensures Sound(WithTarget(bus, slot, target))
  {
    SlotReplaced(bus, slot, bus.targets[slot].value.(target := target));
  }

  lemma StorageFinished(bus: Bus, slot: nat, succeeded: bool)
    requires Sound(bus) && slot < SLOTS && bus.targets[slot].Some?
    ensures Sound(FinishStorage(bus, slot, succeeded).0)
    ensures FinishStorage(bus, slot, succeeded).0.connection == bus.connection
    ensures FinishStorage(bus, slot, succeeded).0.transaction == bus.transaction
  {
    var target := CompleteStorage(bus.targets[slot].value.target, succeeded).0;
    TargetReplaced(bus, slot, target);
  }

  // Attaching and media

  lemma AttachKeeps(bus: Bus, targetId: nat, lun: nat, target: Target, backing: Backing)
    requires Sound(bus) && TargetSound(target)
    requires backing.Fixed? ==> BelievedSize(target) == Some(|backing.medium|) && target.DiskTarget?
    requires backing.Removable? && backing.slot.Some? ==> MediumValid(|backing.slot.value|)
    ensures AttachBacking(bus, targetId, lun, target, backing).Ok? ==>
              Sound(AttachBacking(bus, targetId, lun, target, backing).value)
  {
    var slot := SlotOf(targetId, lun);
    var outcome := AttachBacking(bus, targetId, lun, target, backing);
    if outcome.Ok? {
      hide MediumValid;
      SlotReplaced(bus, slot.value, outcome.value.targets[slot.value].value);
    }
  }

  lemma InsertKeeps(bus: Bus, targetId: nat, lun: nat, medium: seq<Byte>)
    requires Sound(bus)
    ensures InsertMedium(bus, targetId, lun, medium).Ok? ==> Sound(InsertMedium(bus, targetId, lun, medium).value)
  {
    var slot := SlotOf(targetId, lun);
    var outcome := InsertMedium(bus, targetId, lun, medium);
    if outcome.Ok? {
      hide MediumValid;
      assert Consistent(bus.targets[slot.value].value);
      SlotReplaced(bus, slot.value, outcome.value.targets[slot.value].value);
    }
  }

  lemma EjectKeeps(bus: Bus, targetId: nat, lun: nat, force: bool)
    requires Sound(bus)
    ensures EjectByHost(bus, targetId, lun, force).Ok? ==> Sound(EjectByHost(bus, targetId, lun, force).value)
  {
    var slot := SlotOf(targetId, lun);
    var outcome := EjectByHost(bus, targetId, lun, force);
    if outcome.Ok? {
      hide MediumValid;
      assert Consistent(bus.targets[slot.value].value);
      SlotReplaced(bus, slot.value, outcome.value.targets[slot.value].value);
    }
  }

  // Commands

  lemma GuestEjectKeeps(bus: Bus, slot: nat)
    requires Sound(bus) && slot < SLOTS && bus.targets[slot].Some? && bus.transaction.None?
    ensures Sound(EjectByGuest(bus, slot).0)
    ensures EjectByGuest(bus, slot).0.connection == bus.connection
  {
    hide MediumValid;
    var a := bus.targets[slot].value;
    assert Consistent(a);
    var after := EjectByGuest(bus, slot).0;
    if a.backing.Removable? && a.backing.slot.Some? {
      SlotReplaced(bus, slot, after.targets[slot].value);
    }
  }

  lemma TransactionStarts(bus: Bus, slot: nat, transfer: Transfer)
    requires Sound(bus) && slot < SLOTS && bus.targets[slot].Some?
    requires TransferSound(transfer, bus.targets[slot].value)
    ensures Sound(bus.(transaction := Some(Transaction(slot, transfer))))
  {
    hide TransferSound, Consistent, ConnectionFits;
    var after := bus.(transaction := Some(Transaction(slot, transfer)));
    if bus.connection.Some? {
      PresentKept(bus, after, bus.connection.value.targetId);
    }
  }

  lemma PlanKeeps(bus: Bus, slot: nat, cdb: seq<Byte>, plan: Plan)
    requires Sound(bus) && slot < SLOTS && bus.targets[slot].Some? && bus.transaction.None?
    requires PlanFits(bus.targets[slot].value.target, plan) && (plan.ReceiveDataOut? ==> cdb != [])
    ensures Sound(CarryOut(bus, slot, cdb, plan).0)
    ensures CarryOut(bus, slot, cdb, plan).0.connection == bus.connection
    ensures CarryOut(bus, slot, cdb, plan).1.StartedIn? || CarryOut(bus, slot, cdb, plan).1.StartedOut?
       <==> CarryOut(bus, slot, cdb, plan).0.transaction.Some?
  {
    hide MediumValid;
    var a := bus.targets[slot].value;
    assert Consistent(a);
    hide TargetsSound, ConnectionSound;
    match plan {
      case Complete(status, reply) =>
        if reply != [] {
          TransactionStarts(bus, slot, Immediate(reply, 0, status));
        }
      case ReadStorage(offset, count) =>
        TransactionStarts(bus, slot, StorageIn(offset, count));
      case WriteStorage(offset, count) =>
        TransactionStarts(bus, slot, StorageOut(offset, count));
      case ReceiveDataOut(count) =>
        if count == 0 {
          DataOutFits(a.target, cdb, []);
          TargetReplaced(bus, slot, CompleteDataOut(a.target, cdb, []).0);
        } else {
          TransactionStarts(bus, slot, TargetOut(cdb, [], count));
        }
      case EjectMedium =>
        GuestEjectKeeps(bus, slot);
    }
  }

  lemma CommandKeeps(bus: Bus, targetId: nat, lun: nat, cdb: seq<Byte>)
    requires Sound(bus)
    ensures var (after, result) := StartCommand(bus, targetId, lun, cdb);
            Sound(after) && after.connection == bus.connection
  {
    var slot := SlotOf(targetId, lun);
    if slot.Some? && bus.transaction.None? && bus.targets[slot.value].Some? {
      var a := bus.targets[slot.value].value;
      assert Consistent(a);
      ExecuteFits(a.target, cdb);
      var (target, plan) := Execute(a.target, cdb);
      TargetReplaced(bus, slot.value, target);
      assert plan.ReceiveDataOut? ==> cdb != [] by {
        hide CdromCommand, CdromLength, DiskLength, Sound;
      }
      hide Execute, Sound, PlanFits, CarryOut;
      PlanKeeps(WithTarget(bus, slot.value, target), slot.value, cdb, plan);
    }
  }

  // Transfers

  lemma NoTransaction(bus: Bus)
    requires Sound(bus)
    ensures Sound(bus.(transaction := None))
  {
    hide Consistent, ConnectionFits;
    if bus.connection.Some? {
      PresentKept(bus, bus.(transaction := None), bus.connection.value.targetId);
    }
  }

  lemma InKeeps(bus: Bus, maximum: nat, accept: bool, works: bool)
    requires Sound(bus)
    ensures Sound(TransferIn(bus, maximum, accept, works).0)
    ensures TransferIn(bus, maximum, accept, works).0.connection == bus.connection
  {
    NoTransaction(bus);
    if bus.transaction.Some? {
      var slot := bus.transaction.value.slot;
      StorageFinished(bus.(transaction := None), slot, true);
      StorageFinished(bus.(transaction := None), slot, false);
      hide FinishStorage, ReadMedium, Sound;
      match bus.transaction.value.transfer {
        case Immediate(reply, next, status) =>
          var end := Min(next + maximum, |reply|);
          if end < |reply| {
            TransactionStarts(bus, slot, Immediate(reply, end, status));
          }
        case StorageIn(offset, remaining) =>
          var count := Min(maximum, remaining);
          if count < remaining {
            TransactionStarts(bus, slot, StorageIn(offset + count, remaining - count));
          }
        case _ =>
      }
    }
  }

  lemma WrittenKeeps(bus: Bus, slot: nat, offset: nat, bytes: seq<Byte>, works: bool)
    requires Sound(bus) && slot < SLOTS && bus.targets[slot].Some?
    requires WriteMedium(bus.targets[slot].value.backing, offset, bytes, works).Some?
    ensures var after := WithBacking(bus, slot, WriteMedium(bus.targets[slot].value.backing, offset, bytes, works).value);
            Sound(after)
            && BackingSize(after.targets[slot].value.backing) == BackingSize(bus.targets[slot].value.backing)
  {
    hide MediumValid;
    var a := bus.targets[slot].value;
    assert Consistent(a);
    SlotReplaced(bus, slot, a.(backing := WriteMedium(a.backing, offset, bytes, works).value));
  }

  lemma StorageOutKeeps(bus: Bus, maximum: nat, supply: Option<seq<Byte>>, works: bool)
    requires Sound(bus) && bus.transaction.Some? && bus.transaction.value.transfer.StorageOut?
    ensures Sound(TransferOut(bus, maximum, supply, works).0)
    ensures TransferOut(bus, maximum, supply, works).0.connection == bus.connection
  {
    var slot := bus.transaction.value.slot;
    var t := bus.transaction.value.transfer;
    NoTransaction(bus);
    StorageFinished(bus.(transaction := None), slot, false);
    if supply.Some? {
      var count := Min(maximum, t.remaining);
      var bytes := Filled(supply.value, count);
      var written := WriteMedium(bus.targets[slot].value.backing, t.offset, bytes, works);
      if written.Some? {
        WrittenKeeps(bus, slot, t.offset, bytes, works);
        var after := WithBacking(bus, slot, written.value);
        NoTransaction(after);
        hide Sound, FinishStorage, WriteMedium;
        StorageFinished(after.(transaction := None), slot, true);
        if maximum > 0 && count < t.remaining {
          TransactionStarts(after, slot, StorageOut(t.offset + count, t.remaining - count));
        }
      }
    }
    hide Sound, FinishStorage, WriteMedium;
  }

  lemma TargetOutKeeps(bus: Bus, maximum: nat, supply: Option<seq<Byte>>, works: bool)
    requires Sound(bus) && bus.transaction.Some? && bus.transaction.value.transfer.TargetOut?
    ensures Sound(TransferOut(bus, maximum, supply, works).0)
    ensures TransferOut(bus, maximum, supply, works).0.connection == bus.connection
  {
    var slot := bus.transaction.value.slot;
    var t := bus.transaction.value.transfer;
    if supply.Some? && maximum > 0 {
      var count := Min(maximum, t.remaining);
      var bytes := Filled(supply.value, count);
      var a := bus.targets[slot].value;
      assert Consistent(a);
      if count == t.remaining {
        DataOutFits(a.target, t.cdb, t.received + bytes);
        var target := CompleteDataOut(a.target, t.cdb, t.received + bytes).0;
        TargetReplaced(bus, slot, target);
        NoTransaction(WithTarget(bus, slot, target));
      } else {
        TransactionStarts(bus, slot, TargetOut(t.cdb, t.received + bytes, t.remaining - count));
      }
      hide Sound, CompleteDataOut, Filled;
    }
  }

  lemma OutKeeps(bus: Bus, maximum: nat, supply: Option<seq<Byte>>, works: bool)
    requires Sound(bus)
    ensures Sound(TransferOut(bus, maximum, supply, works).0)
    ensures TransferOut(bus, maximum, supply, works).0.connection == bus.connection
  {
    if bus.transaction.Some? && bus.transaction.value.transfer.StorageOut? {
      StorageOutKeeps(bus, maximum, supply, works);
    } else if bus.transaction.Some? && bus.transaction.value.transfer.TargetOut? {
      TargetOutKeeps(bus, maximum, supply, works);
    }
  }

  // Information phases

  lemma ConnectionReplaced(bus: Bus, c: Connection)
    requires Sound(bus) && Present(bus, c.targetId) && ConnectionFits(c)
    ensures Sound(Connected(bus, c))
  {
    hide Consistent, ConnectionFits;
    PresentKept(bus, Connected(bus, c), c.targetId);
  }

  lemma StatusKeeps(bus: Bus, status: Status)
    requires Sound(bus)
    ensures Sound(SetStatus(bus, status))
  {
    if bus.connection.Some? {
      ConnectionReplaced(bus, SetStatus(bus, status).connection.value);
    }
  }

  /** A reply to messages is no longer than they are. */
  lemma {:induction false} ReplyFits(bytes: seq<Byte>, m: Messages)
    requires m.lun < 8
    ensures var parsed := Parse(bytes, m);
            parsed.lun < 8 && |parsed.reply| <= |m.reply| + |bytes|
    decreases |bytes|
  {
    if bytes == [] {
    } else if bytes[0] >= 0x80 {
      ReplyFits(bytes[1..], m.(lun := bytes[0] % 8, identified := true));
    } else if bytes[0] == 1 && |bytes| >= 5 && bytes[1] == 3 && bytes[2] == 1 {
      ReplyFits(bytes[5..], m.(reply := m.reply + [1, 3, 1, bytes[3], 0]));
    } else if bytes[0] == 7 || bytes[0] == 8 {
      ReplyFits(bytes[1..], m);
    }
  }

  lemma MessagesKeep(bus: Bus)
    requires Sound(bus) && bus.connection.Some?
    ensures Sound(FinishMessageOut(bus))
  {
    var c := bus.connection.value;
    ReplyFits(c.messageOut, Messages(c.lun, c.identified, []));
    NoTransaction(bus);
    if c.messageOut != [6] {
      ConnectionReplaced(bus, FinishMessageOut(bus).connection.value);
    }
    hide Parse, Consistent;
  }

  lemma FirstUnitFound(bus: Bus, targetId: nat, slot: nat, from: nat)
    requires from <= slot < SLOTS && bus.targets[slot].Some?
    ensures from <= FirstUnit(bus, from) <= slot && bus.targets[FirstUnit(bus, from)].Some?
    decreases slot - from
  {
    if from < slot && bus.targets[from].None? {
      FirstUnitFound(bus, targetId, slot, from + 1);
    }
  }

  lemma MissingUnitKeeps(bus: Bus, cdb: seq<Byte>)
    requires Sound(bus) && bus.connection.Some? && |cdb| >= 6
    ensures Sound(MissingUnit(bus, cdb))
  {
    var c := bus.connection.value;
    var slot :| c.targetId * 8 <= slot < c.targetId * 8 + 8 && bus.targets[slot].Some?;
    FirstUnitFound(bus, c.targetId, slot, c.targetId * 8);
    StatusKeeps(bus, Good);
    StatusKeeps(bus, CheckCondition);
    var reply := if cdb[0] == 0x12 then Truncated([0x7f, 0, 0, 0, 31] + seq(31, _ => 0), cdb[4])
                 else FixedSense(SenseData(5, 0x25, 0), cdb[4]);
    assert Present(bus, c.targetId) && ConnectionFits(c);
    hide Sound, FixedSense, Truncated, FirstUnit;
    if reply != [] {
      var unit := FirstUnit(bus, c.targetId * 8);
      TransactionStarts(bus, unit, Immediate(reply, 0, Good));
      var started := bus.(transaction := Some(Transaction(unit, Immediate(reply, 0, Good))));
      PresentKept(bus, started, c.targetId);
      ConnectionReplaced(started, c.(phase := DataIn));
    }
  }

  lemma ConnectedCommandKeeps(bus: Bus)
    requires Sound(bus) && bus.connection.Some? && |bus.connection.value.cdb| >= 6
    ensures Sound(ExecuteConnected(bus).0)
  {
    var c := bus.connection.value.(lun := UnitOf(bus.connection.value));
    ConnectionReplaced(bus, c);
    CommandKeeps(Connected(bus, c), c.targetId, c.lun, c.cdb);
    var (started, result) := StartCommand(Connected(bus, c), c.targetId, c.lun, c.cdb);
    assert Present(started, c.targetId) && ConnectionFits(c);
    assert ConnectionFits(c.(phase := DataIn)) && ConnectionFits(c.(phase := DataOut));
    hide Sound, StartCommand, MissingUnit, SetStatus, Present, ConnectionFits;
    StatusKeeps(started, Good);
    StatusKeeps(started, CheckCondition);
    ConnectionReplaced(started, c.(phase := DataIn));
    ConnectionReplaced(started, c.(phase := DataOut));
    ConnectionReplaced(started, c);
    MissingUnitKeeps(Connected(started, c), c.cdb);
  }

  lemma WriteKeeps(bus: Bus, value: Byte, last: bool, works: bool)
    requires Sound(bus)
    ensures Sound(WriteInformation(bus, value, last, works).0)
  {
    if bus.connection.Some? {
      var c := bus.connection.value;
      match c.phase {
        case MessageOut =>
          if |c.messageOut| != MESSAGE_LIMIT {
            var heard := Connected(bus, c.(messageOut := c.messageOut + [value]));
            ConnectionReplaced(bus, c.(messageOut := c.messageOut + [value]));
            MessagesKeep(heard);
          }
          hide Sound, FinishMessageOut;
        case Command =>
          if |c.cdb| != 16 {
            var heard := c.(cdb := c.cdb + [value]);
            ConnectionReplaced(bus, heard);
            hide Sound, ExecuteConnected;
            if |heard.cdb| == CdbLength(heard.cdb[0]) {
              ConnectedCommandKeeps(Connected(bus, heard));
            }
          }
        case DataOut =>
          var (after, chunk) := TransferOut(bus, 1, Some([value]), works);
          OutKeeps(bus, 1, Some([value]), works);
          hide Sound, TransferOut;
          if chunk.Ended? {
            StatusKeeps(after, chunk.status);
          }
        case _ =>
      }
    }
  }

  lemma ReadKeeps(bus: Bus, works: bool)
    requires Sound(bus)
    ensures Sound(ReadInformation(bus, works).0)
  {
    if bus.connection.Some? {
      var c := bus.connection.value;
      var (after, chunk) := TransferIn(bus, 1, true, works);
      InKeeps(bus, 1, true, works);
      if c.phase == MessageIn && c.messageOffset < |c.messageIn| {
        ConnectionReplaced(bus, c.(messageOffset := c.messageOffset + 1));
      }
      ConnectionReplaced(bus, c.(phase := MessageIn, messageIn := [0], messageOffset := 0));
      hide Sound, TransferIn;
      if chunk.Ended? {
        StatusKeeps(after, chunk.status);
      }
    }
  }

  lemma HandshakesKeep(bus: Bus, attention: bool)
    requires Sound(bus)
    ensures Sound(AcknowledgeMessage(bus, attention)) && Sound(AssertAttention(bus))
  {
    if bus.connection.Some? {
      var c := bus.connection.value;
      ConnectionReplaced(bus, c.(messageIn := [], messageOffset := 0, phase := MessageOut));
      ConnectionReplaced(bus, c.(messageIn := [], messageOffset := 0, phase := c.returnPhase));
      ConnectionReplaced(bus, c.(returnPhase := c.phase, phase := MessageOut, messageOut := []));
      hide Consistent, ConnectionFits, TransferSound;
    }
  }

  // Runs

  lemma HostKeeps(bus: Bus, e: Event)
    requires Sound(bus) && Constructed(e)
    requires e.Attached? || e.AttachedEmpty? || e.Inserted? || e.Ejected? || e.Selected? || e.Cancelled?
    ensures Sound(Apply(bus, e))
  {
    match e {
      case Attached(id, lun, target, storage) =>
        if target.DiskTarget? && target.disk.blockCount * DISK_BLOCK == |storage| {
          AttachKeeps(bus, id, lun, target, Fixed(storage));
        } else if target.CdromTarget? && MediumValid(|storage|) {
          AttachKeeps(bus, id, lun, target, Removable(Some(storage)));
        }
        hide Sound, AttachBacking, MediumValid;
      case AttachedEmpty(id, lun, target) =>
        AttachKeeps(bus, id, lun, target, Removable(None));
        hide Sound, AttachBacking;
      case Inserted(id, lun, medium) =>
        InsertKeeps(bus, id, lun, medium);
        hide Sound, InsertMedium;
      case Ejected(id, lun, force) =>
        EjectKeeps(bus, id, lun, force);
        hide Sound, EjectByHost;
      case Selected(id, attention) =>
        hide Consistent;
        if Select(bus, id, attention).1 == Ok(true) {
          ConnectionReplaced(bus, Select(bus, id, attention).0.connection.value);
        }
      case _ =>
        NoTransaction(bus);
        hide Consistent;
    }
  }

  lemma StepKeepsSound(bus: Bus, e: Event)
    requires Sound(bus) && Constructed(e)
    ensures Sound(Apply(bus, e))
  {
    hide Sound, StartCommand, TransferIn, TransferOut, WriteInformation, ReadInformation, AcknowledgeMessage;
    hide AssertAttention, SetStatus, Restore, Attach, AttachEmpty, InsertMedium, EjectByHost, Select, TargetSound;
    match e {
      case Started(id, lun, cdb) =>
        CommandKeeps(bus, id, lun, cdb);
      case MovedIn(maximum, accept, works) =>
        InKeeps(bus, maximum, accept, works);
      case MovedOut(maximum, supply, works) =>
        OutKeeps(bus, maximum, supply, works);
      case Wrote(value, last, works) =>
        WriteKeeps(bus, value, last, works);
      case ReadOne(works) =>
        ReadKeeps(bus, works);
      case Acknowledged(attention) =>
        HandshakesKeep(bus, attention);
      case AttentionRaised =>
        HandshakesKeep(bus, false);
      case Observed(status) =>
        StatusKeeps(bus, status);
      case RestoredFrom(snapshot) =>
        if Restore(bus, snapshot).Ok? {
          RestoreIsSound(bus, snapshot);
        }
      case _ =>
        HostKeeps(bus, e);
    }
  }

  /** The bus after a run, with the invariant that makes each step defined. */
  function Run(bus: Bus, events: seq<Event>): Bus
    requires Sound(bus) && forall e :: e in events ==> Constructed(e)
    decreases |events|
  {
    if events == [] then bus
    else
      StepKeepsSound(bus, events[0]);
      Run(Apply(bus, events[0]), events[1..])
  }

  lemma {:induction false} RunKeepsSound(bus: Bus, events: seq<Event>)
    requires Sound(bus) && forall e :: e in events ==> Constructed(e)
    ensures Sound(Run(bus, events))
    decreases |events|
  {
    hide Sound, Apply, Constructed;
    if events != [] {
      StepKeepsSound(bus, events[0]);
      RunKeepsSound(Apply(bus, events[0]), events[1..]);
    }
  }

  lemma EmptyBusSound()
    ensures Sound(EMPTY_BUS)
  {
  }

  /** What the invariant says of any run from an empty bus. */
  lemma MediaAgree(events: seq<Event>, slot: nat)
    requires slot < SLOTS && forall e :: e in events ==> Constructed(e)
    ensures Sound(EMPTY_BUS)
    ensures var a := Run(EMPTY_BUS, events).targets[slot];
            a.Some? ==> BelievedSize(a.value.target) == BackingSize(a.value.backing)
    ensures var t := Run(EMPTY_BUS, events).transaction;
            var targets := Run(EMPTY_BUS, events).targets;
            t.Some? && t.value.slot == slot ==>
              && targets[slot].Some?
              && (t.value.transfer.StorageIn? || t.value.transfer.StorageOut? ==>
                    && t.value.transfer.remaining > 0
                    && InRange(targets[slot].value.backing, t.value.transfer.offset, t.value.transfer.remaining))
              && (t.value.transfer.Immediate? ==> t.value.transfer.next < |t.value.transfer.reply|)
  {
    EmptyBusSound();
    RunKeepsSound(EMPTY_BUS, events);
    var a := Run(EMPTY_BUS, events).targets[slot];
    hide Run, TargetSound;
    assert a.Some? ==> Consistent(a.value);
  }
}
