/**
 Transfers in chunks.  However the initiator sizes, accepts and rejects the chunks,
 a transfer moves the same bytes and leaves the same bus as one chunk that takes
 everything: `PullsAreOneTransfer` towards the initiator, `PushesAreOneTransfer`
 towards the target.
 */
module ScsiTransfer {
  import opened Options
  import opened Words
  import opened ScsiTargets
  import opened ScsiBus

  /** A chunk that was refused or rejected changes nothing. */
  lemma RejectedChangesNothing(bus: Bus, maximum: nat, accept: bool, supply: Option<seq<Byte>>, works: bool)
    requires TransactionSound(bus)
    ensures var (after, chunk) := TransferIn(bus, maximum, accept, works);
            chunk.Rejected? || chunk.Refused? ==> after == bus
    ensures var (after, chunk) := TransferOut(bus, maximum, supply, works);
            chunk.Rejected? || chunk.Refused? ==> after == bus
  {
    hide Overwritten, Filled, CompleteDataOut;
  }

  // Towards the initiator

  predicate Incoming(bus: Bus) {
    && TransactionSound(bus) && bus.transaction.Some?
    && (bus.transaction.value.transfer.Immediate? || bus.transaction.value.transfer.StorageIn?)
  }

  function MediumOf(backing: Backing): seq<Byte>
    requires BackingSize(backing).Some?
  {
    match backing
    case Fixed(medium) => medium
    case Removable(slot) => slot.value
  }

  /** The bytes the initiator has yet to get. */
  function ToCome(bus: Bus): seq<Byte>
    requires Incoming(bus)
  {
    match bus.transaction.value.transfer
    case Immediate(reply, next, _) => reply[next..]
    case StorageIn(offset, remaining) =>
      MediumOf(bus.targets[bus.transaction.value.slot].value.backing)[offset..offset + remaining]
  }

  /** The bus and the status when all of it has been taken. */
  function AllTaken(bus: Bus): (Bus, Status)
    requires Incoming(bus)
  {
    var done := bus.(transaction := None);
    match bus.transaction.value.transfer
    case Immediate(_, _, status) => (done, status)
    case StorageIn(_, _) => FinishStorage(done, bus.transaction.value.slot, true)
  }

  /** The size of a chunk the initiator can take, and whether it takes it. */
  datatype Pull = Pull(maximum: nat, accept: bool)

  /** A chunk brings the next bytes; only the last one ends the transfer. */
  lemma OnePull(bus: Bus, p: Pull)
    requires Incoming(bus) && p.maximum > 0 && p.accept
    ensures var (after, chunk) := TransferIn(bus, p.maximum, true, true);
            && ToCome(bus) != []
            && (if p.maximum >= |ToCome(bus)| then
                  after == AllTaken(bus).0 && chunk == Ended(ToCome(bus), AllTaken(bus).1) && after.transaction.None?
                else
                  && Incoming(after) && AllTaken(after) == AllTaken(bus)
                  && chunk == More(ToCome(bus)[..p.maximum], |ToCome(bus)| - p.maximum)
                  && ToCome(after) == ToCome(bus)[p.maximum..])
  {
    if bus.transaction.value.transfer.Immediate? {
      ReplyPull(bus, p);
    } else {
      StoragePull(bus, p);
    }
    hide TransferIn, Incoming, ToCome, AllTaken;
  }

  lemma ReplyPull(bus: Bus, p: Pull)
    requires Incoming(bus) && p.maximum > 0 && p.accept && bus.transaction.value.transfer.Immediate?
    ensures PulledNext(bus, p)
  {
    hide CompleteStorage;
    var t := bus.transaction.value.transfer;
    if p.maximum < |t.reply| - t.next {
      var n := p.maximum;
      assert t.reply[t.next..][..n] == t.reply[t.next..t.next + n] && t.reply[t.next..][n..] == t.reply[t.next + n..];
    }
  }

  lemma StoragePull(bus: Bus, p: Pull)
    requires Incoming(bus) && p.maximum > 0 && p.accept && bus.transaction.value.transfer.StorageIn?
    ensures PulledNext(bus, p)
  {
    var t := bus.transaction.value;
    var backing := bus.targets[t.slot].value.backing;
    var o, r, n := t.transfer.offset, t.transfer.remaining, Min(p.maximum, t.transfer.remaining);
    RangeRead(backing, o, r);
    RangeRead(backing, o, n);
    if p.maximum < r {
      StorageGoesOn(bus, p);
    }
    hide CompleteStorage, ReadMedium, MediumOf;
  }

  lemma RangeRead(backing: Backing, offset: nat, count: nat)
    requires InRange(backing, offset, count)
    ensures offset + count <= |MediumOf(backing)|
    ensures ReadMedium(backing, offset, count, true) == Some(MediumOf(backing)[offset..offset + count])
  {
  }

  lemma StorageGoesOn(bus: Bus, p: Pull)
    requires Incoming(bus) && p.maximum > 0 && p.accept && bus.transaction.value.transfer.StorageIn?
    requires p.maximum < bus.transaction.value.transfer.remaining
    ensures PulledNext(bus, p)
  {
    var t := bus.transaction.value;
    var backing := bus.targets[t.slot].value.backing;
    var o, r, n := t.transfer.offset, t.transfer.remaining, p.maximum;
    RangeRead(backing, o, r);
    RangeRead(backing, o, n);
    RangeRead(backing, o + n, r - n);
    var medium := MediumOf(backing);
    hide FinishStorage, ReadMedium, MediumOf;
    assert medium[o..o + r][..n] == medium[o..o + n] && medium[o..o + r][n..] == medium[o + n..o + r];
  }

  /** A chunk brings the next bytes, or all of them and the end. */
  predicate PulledNext(bus: Bus, p: Pull)
    requires Incoming(bus) && p.maximum > 0 && p.accept
  {
    var (after, chunk) := TransferIn(bus, p.maximum, true, true);
    && ToCome(bus) != []
    && (if p.maximum >= |ToCome(bus)| then
          after == AllTaken(bus).0 && chunk == Ended(ToCome(bus), AllTaken(bus).1) && after.transaction.None?
        else
          && Incoming(after) && AllTaken(after) == AllTaken(bus)
          && chunk == More(ToCome(bus)[..p.maximum], |ToCome(bus)| - p.maximum)
          && ToCome(after) == ToCome(bus)[p.maximum..])
  }

  /** A sequence of chunks: the bytes of those that were accepted, and the status if one ended the transfer. */
  function Pulled(bus: Bus, pulls: seq<Pull>): (Bus, seq<Byte>, Option<Status>)
    requires Incoming(bus) && forall p :: p in pulls ==> p.maximum > 0
    decreases |pulls|
  {
    if pulls == [] then (bus, [], None)
    else
      var (after, chunk) := TransferIn(bus, pulls[0].maximum, pulls[0].accept, true);
      if chunk.Rejected? then Pulled(bus, pulls[1..])
      else if chunk.More? && Incoming(after) then
        var (end, bytes, status) := Pulled(after, pulls[1..]);
        (end, chunk.moved + bytes, status)
      else if chunk.Ended? then (after, chunk.moved, Some(chunk.status))
      else (after, [], None)
  }

  /** The transfer so far, and what is left of it. */
  predicate OneTransfer(bus: Bus, end: Bus, bytes: seq<Byte>, status: Option<Status>)
    requires Incoming(bus)
  {
    if status.None? then Incoming(end) && bytes + ToCome(end) == ToCome(bus) && AllTaken(end) == AllTaken(bus)
    else end.transaction.None? && bytes == ToCome(bus) && (end, status.value) == AllTaken(bus)
  }

  lemma {:induction false} PullsAreOneTransfer(bus: Bus, pulls: seq<Pull>)
    requires Incoming(bus) && forall p :: p in pulls ==> p.maximum > 0
    ensures var (end, bytes, status) := Pulled(bus, pulls);
            if status.None? then
              Incoming(end) && bytes + ToCome(end) == ToCome(bus) && AllTaken(end) == AllTaken(bus)
            else end.transaction.None? && bytes == ToCome(bus) && (end, status.value) == AllTaken(bus)
    decreases |pulls|
  {
    hide TransferIn, Incoming, ToCome, AllTaken;
    if pulls == [] {
      assert [] + ToCome(bus) == ToCome(bus);
    } else if pulls[0].accept {
      AcceptedPull(bus, pulls);
    } else {
      RejectedPull(bus, pulls[0].maximum);
      PullsAreOneTransfer(bus, pulls[1..]);
    }
  }

  /** A chunk that is accepted, and those after it. */
  lemma {:induction false} AcceptedPull(bus: Bus, pulls: seq<Pull>)
    requires Incoming(bus) && pulls != [] && pulls[0].accept && forall p :: p in pulls ==> p.maximum > 0
    ensures var (end, bytes, status) := Pulled(bus, pulls); OneTransfer(bus, end, bytes, status)
    decreases |pulls|, 0
  {
    assert TransactionSound(bus);
    hide TransferIn, Incoming, ToCome, AllTaken;
    OnePull(bus, pulls[0]);
    var (after, chunk) := TransferIn(bus, pulls[0].maximum, true, true);
    if chunk.More? {
      PullsAreOneTransfer(after, pulls[1..]);
      var (end, bytes, status) := Pulled(after, pulls[1..]);
      assert ToCome(bus) == chunk.moved + ToCome(after);
      ThenTheRest(bus, after, chunk.moved, end, bytes, status);
      hide OneTransfer;
    }
  }

  lemma ThenTheRest(bus: Bus, after: Bus, moved: seq<Byte>, end: Bus, bytes: seq<Byte>, status: Option<Status>)
    requires Incoming(bus) && Incoming(after) && ToCome(bus) == moved + ToCome(after) && AllTaken(after) == AllTaken(bus)
    requires OneTransfer(after, end, bytes, status)
    ensures OneTransfer(bus, end, moved + bytes, status)
  {
    hide Incoming, ToCome, AllTaken;
    if status.None? {
      assert moved + (bytes + ToCome(end)) == moved + bytes + ToCome(end);
    }
  }

  lemma RejectedPull(bus: Bus, maximum: nat)
    requires Incoming(bus) && maximum > 0
    ensures TransferIn(bus, maximum, false, true).0 == bus && TransferIn(bus, maximum, false, true).1.Rejected?
  {
  }

  // Towards the target

  predicate Outgoing(bus: Bus) {
    && TransactionSound(bus) && bus.transaction.Some?
    && (bus.transaction.value.transfer.StorageOut? || bus.transaction.value.transfer.TargetOut?)
  }

  /** How many bytes the target still wants. */
  function Wanted(bus: Bus): nat
    requires Outgoing(bus)
  {
    bus.transaction.value.transfer.remaining
  }

  function OverBacking(backing: Backing, offset: nat, bytes: seq<Byte>): Backing
    requires InRange(backing, offset, |bytes|)
  {
    match backing
    case Fixed(medium) => Fixed(Overwritten(medium, offset, bytes))
    case Removable(held) => Removable(Some(Overwritten(held.value, offset, bytes)))
  }

  /** The bus and the status when the rest of the payload has been given. */
  function AllGiven(bus: Bus, payload: seq<Byte>): (Bus, Status)
    requires Outgoing(bus) && |payload| == Wanted(bus)
  {
    var slot := bus.transaction.value.slot;
    var a := bus.targets[slot].value;
    match bus.transaction.value.transfer
    case StorageOut(offset, _) =>
      FinishStorage(WithBacking(bus, slot, OverBacking(a.backing, offset, payload)).(transaction := None), slot, true)
    case TargetOut(cdb, received, _) =>
      var (target, status) := CompleteDataOut(a.target, cdb, received + payload);
      (WithTarget(bus, slot, target).(transaction := None), status)
  }

  /** The size of a chunk, and what the initiator fills it with, if it does. */
  datatype Push = Push(maximum: nat, fill: Option<seq<Byte>>)

  lemma OverwriteTwice(medium: seq<Byte>, offset: nat, a: seq<Byte>, b: seq<Byte>)
    requires offset + |a| + |b| <= |medium|
    ensures Overwritten(Overwritten(medium, offset, a), offset + |a|, b) == Overwritten(medium, offset, a + b)
  {
  }

  /** A chunk gives the next bytes; what follows it completes the same payload. */
  lemma OnePush(bus: Bus, p: Push)
    requires Outgoing(bus) && p.maximum > 0 && p.fill.Some?
    ensures var (after, chunk) := TransferOut(bus, p.maximum, p.fill, true);
            if p.maximum >= Wanted(bus) then
              && chunk.Ended? && |chunk.moved| == Wanted(bus)
              && (after, chunk.status) == AllGiven(bus, chunk.moved) && after.transaction.None?
            else
              Outgoing(after) && chunk.More? && |chunk.moved| == p.maximum && Wanted(after) == Wanted(bus) - p.maximum
  {
    hide CompleteStorage, CompleteDataOut, Filled;
    hide Overwritten;
  }

  lemma PushThenRest(bus: Bus, p: Push, rest: seq<Byte>)
    requires Outgoing(bus) && 0 < p.maximum < Wanted(bus) && p.fill.Some?
    requires |rest| == Wanted(bus) - p.maximum
    ensures var (after, chunk) := TransferOut(bus, p.maximum, p.fill, true);
            chunk.More? && |chunk.moved| == p.maximum && Outgoing(after) && Wanted(after) == |rest|
            && AllGiven(after, rest) == AllGiven(bus, chunk.moved + rest)
  {
    OnePush(bus, p);
    hide CompleteStorage, CompleteDataOut, Filled;
    var t := bus.transaction.value;
    var bytes := Filled(p.fill.value, p.maximum);
    if t.transfer.StorageOut? {
      var a := bus.targets[t.slot].value;
      var medium := MediumOf(a.backing);
      OverwriteTwice(medium, t.transfer.offset, bytes, rest);
      BackingTwice(bus, t.slot, OverBacking(a.backing, t.transfer.offset, bytes),
                   OverBacking(a.backing, t.transfer.offset, bytes + rest));
      hide Overwritten, FinishStorage;
      assert TransferOut(bus, p.maximum, p.fill, true).1.moved == bytes;
    } else {
      assert t.transfer.received + bytes + rest == t.transfer.received + (bytes + rest);
    }
  }

  lemma BackingTwice(bus: Bus, slot: nat, first: Backing, second: Backing)
    requires slot < SLOTS && bus.targets[slot].Some?
    ensures WithBacking(WithBacking(bus, slot, first), slot, second) == WithBacking(bus, slot, second)
  {
    assert WithBacking(WithBacking(bus, slot, first), slot, second).targets == WithBacking(bus, slot, second).targets;
  }

  function Pushed(bus: Bus, pushes: seq<Push>): (Bus, seq<Byte>, Option<Status>)
    requires Outgoing(bus) && forall p :: p in pushes ==> p.maximum > 0
    decreases |pushes|
  {
    if pushes == [] then (bus, [], None)
    else
      var (after, chunk) := TransferOut(bus, pushes[0].maximum, pushes[0].fill, true);
      if chunk.Rejected? then Pushed(bus, pushes[1..])
      else if chunk.More? && Outgoing(after) then
        var (end, bytes, status) := Pushed(after, pushes[1..]);
        (end, chunk.moved + bytes, status)
      else if chunk.Ended? then (after, chunk.moved, Some(chunk.status))
      else (after, [], None)
  }

  /** What is left to give completes the same payload as on the bus before. */
  ghost predicate SameCompletion(bus: Bus, given: seq<Byte>, end: Bus)
    requires Outgoing(bus) && Outgoing(end) && |given| + Wanted(end) == Wanted(bus)
  {
    forall rest: seq<Byte> {:trigger AllGiven(end, rest)} ::
      |rest| == Wanted(end) ==> AllGiven(end, rest) == AllGiven(bus, given + rest)
  }

  lemma {:induction false} PushesAreOneTransfer(bus: Bus, pushes: seq<Push>)
    requires Outgoing(bus) && forall p :: p in pushes ==> p.maximum > 0
    ensures var (end, bytes, status) := Pushed(bus, pushes);
            if status.None? then
              Outgoing(end) && |bytes| + Wanted(end) == Wanted(bus) && SameCompletion(bus, bytes, end)
            else end.transaction.None? && |bytes| == Wanted(bus) && (end, status.value) == AllGiven(bus, bytes)
    decreases |pushes|
  {
    hide TransferOut, AllGiven;
    if pushes == [] {
      forall rest: seq<Byte> | |rest| == Wanted(bus)
        ensures AllGiven(bus, rest) == AllGiven(bus, [] + rest)
      {
        assert [] + rest == rest;
      }
    } else if pushes[0].fill.None? {
      RejectedPush(bus, pushes[0].maximum);
      PushesAreOneTransfer(bus, pushes[1..]);
    } else {
      OnePush(bus, pushes[0]);
      hide Outgoing, Wanted;
      if pushes[0].maximum < Wanted(bus) {
        PushesContinue(bus, pushes);
      }
    }
  }

  lemma {:induction false} PushesContinue(bus: Bus, pushes: seq<Push>)
    requires Outgoing(bus) && (forall p :: p in pushes ==> p.maximum > 0)
    requires pushes != [] && pushes[0].fill.Some? && pushes[0].maximum < Wanted(bus)
    ensures var (end, bytes, status) := Pushed(bus, pushes);
            if status.None? then
              Outgoing(end) && |bytes| + Wanted(end) == Wanted(bus) && SameCompletion(bus, bytes, end)
            else end.transaction.None? && |bytes| == Wanted(bus) && (end, status.value) == AllGiven(bus, bytes)
    decreases |pushes|, 0
  {
    hide TransferOut, AllGiven;
    var (after, chunk) := TransferOut(bus, pushes[0].maximum, pushes[0].fill, true);
    OnePush(bus, pushes[0]);
    hide Outgoing, Wanted;
    PushesAreOneTransfer(after, pushes[1..]);
    var (end, bytes, status) := Pushed(after, pushes[1..]);
    if status.None? {
      forall rest: seq<Byte> | |rest| == Wanted(end)
        ensures AllGiven(end, rest) == AllGiven(bus, chunk.moved + bytes + rest)
      {
        PushThenRest(bus, pushes[0], bytes + rest);
        assert chunk.moved + (bytes + rest) == chunk.moved + bytes + rest;
      }
    } else {
      PushThenRest(bus, pushes[0], bytes);
    }
  }

  lemma RejectedPush(bus: Bus, maximum: nat)
    requires Outgoing(bus) && maximum > 0
    ensures TransferOut(bus, maximum, None, true).0 == bus && TransferOut(bus, maximum, None, true).1.Rejected?
  {
  }

  /** A storage payload overwrites its range of the one medium and nothing else on the bus but sense data. */
  lemma PayloadOverwritesItsRange(bus: Bus, payload: seq<Byte>, slot: nat, i: nat)
    requires Outgoing(bus) && |payload| == Wanted(bus) && bus.transaction.value.transfer.StorageOut?
    requires slot < SLOTS && bus.targets[slot].Some? && BackingSize(bus.targets[slot].value.backing).Some?
    requires i < |MediumOf(bus.targets[slot].value.backing)|
    ensures var after := AllGiven(bus, payload).0.targets[slot];
            var offset := bus.transaction.value.transfer.offset;
            && after.Some? && BackingSize(after.value.backing) == BackingSize(bus.targets[slot].value.backing)
            && MediumOf(after.value.backing)[i] ==
               if slot == bus.transaction.value.slot && offset <= i < offset + |payload| then payload[i - offset]
               else MediumOf(bus.targets[slot].value.backing)[i]
  {
    hide CompleteStorage, CompleteDataOut;
    GivenTargets(bus, payload);
    hide AllGiven;
  }

  /** Giving a storage payload overwrites the medium of its slot. */
  lemma GivenTargets(bus: Bus, payload: seq<Byte>)
    requires Outgoing(bus) && |payload| == Wanted(bus) && bus.transaction.value.transfer.StorageOut?
    ensures var t := bus.transaction.value;
            var backing := OverBacking(bus.targets[t.slot].value.backing, t.transfer.offset, payload);
            AllGiven(bus, payload).0.targets ==
            bus.targets[t.slot := Some(Attachment(CompleteStorage(bus.targets[t.slot].value.target, true).0, backing))]
  {
    hide CompleteStorage, Overwritten;
  }
}
