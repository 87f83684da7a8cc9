/**
 Messages between initiator and target: what the initiator sends is understood message
 by message, the reply comes back byte by byte, and then the target goes on where the
 attention came in.
 */
module ScsiMessages {
  import opened Options
  import opened Words
  import opened ScsiTargets
  import opened ScsiBus
  import opened ScsiConnection

  // Messages and their bytes

  /** IDENTIFY with its unit, synchronous transfer request with period and offset, two that need no reply, and others. */
  datatype Message =
    | Identify(unit: nat, others: nat)
    | SynchronousTransfer(period: Byte, offset: Byte)
    | MessageReject
    | NoOperation
    | Unknown(first: Byte)

  predicate Proper(m: Message) {
    match m
    case Identify(unit, others) => unit < 8 && others < 16
    case Unknown(first) => first < 0x80 && first !in {1, 7, 8}
    case _ => true
  }

  function Bytes(m: Message): seq<Byte>
    requires Proper(m)
  {
    match m
    case Identify(unit, others) => [0x80 + 8 * others + unit]
    case SynchronousTransfer(period, offset) => [1, 3, 1, period, offset]
    case MessageReject => [7]
    case NoOperation => [8]
    case Unknown(first) => [first]
  }

  function AllBytes(ms: seq<Message>): seq<Byte>
    requires forall m :: m in ms ==> Proper(m)
  {
    if ms == [] then [] else Bytes(ms[0]) + AllBytes(ms[1..])
  }

  /** The unit named last before the first message that is not understood. */
  function UnitNamed(ms: seq<Message>, before: Option<nat>): Option<nat>
    decreases |ms|
  {
    if ms == [] || ms[0].Unknown? then before
    else UnitNamed(ms[1..], if ms[0].Identify? then Some(ms[0].unit) else before)
  }

  /** Asynchronous transfer for every synchronous request, and MESSAGE REJECT for what is not understood, at which all ends. */
  function Replies(ms: seq<Message>): seq<Byte> {
    if ms == [] then []
    else
      match ms[0]
      case SynchronousTransfer(period, _) => Bytes(SynchronousTransfer(period, 0)) + Replies(ms[1..])
      case Unknown(_) => Bytes(MessageReject)
      case _ => Replies(ms[1..])
  }

  /** One message at the front. */
  lemma OneMessage(m: Message, rest: seq<Byte>, heard: Messages)
    requires Proper(m)
    ensures Parse(Bytes(m) + rest, heard) ==
            if m.Identify? then Parse(rest, heard.(lun := m.unit, identified := true))
            else if m.SynchronousTransfer? then Parse(rest, heard.(reply := heard.reply + [1, 3, 1, m.period, 0]))
            else if m.Unknown? then heard.(reply := heard.reply + [7])
            else Parse(rest, heard)
  {
    var bytes := Bytes(m) + rest;
    assert bytes[|Bytes(m)|..] == rest && bytes[0] == Bytes(m)[0];
    if m.Identify? {
      assert (0x80 + 8 * m.others + m.unit) % 8 == m.unit;
    }
  }

  /** Messages are understood one by one, whatever their number. */
  lemma {:induction false} MessagesAreUnderstood(ms: seq<Message>, heard: Messages)
    requires forall m :: m in ms ==> Proper(m)
    ensures var unit := UnitNamed(ms, None);
            Parse(AllBytes(ms), heard) ==
            Messages(if unit.Some? then unit.value else heard.lun, heard.identified || unit.Some?, heard.reply + Replies(ms))
    decreases |ms|
  {
    if ms == [] {
      assert heard.reply + [] == heard.reply;
    } else {
      OneMessage(ms[0], AllBytes(ms[1..]), heard);
      hide Parse;
      match ms[0] {
        case Identify(unit, _) =>
          MessagesAreUnderstood(ms[1..], heard.(lun := unit, identified := true));
          LaterUnit(ms[1..], unit);
        case SynchronousTransfer(period, _) =>
          var told := heard.reply + [1, 3, 1, period, 0];
          MessagesAreUnderstood(ms[1..], heard.(reply := told));
          assert told + Replies(ms[1..]) == heard.reply + ([1, 3, 1, period, 0] + Replies(ms[1..]));
        case Unknown(_) =>
        case _ =>
          MessagesAreUnderstood(ms[1..], heard);
      }
    }
  }

  lemma {:induction false} LaterUnit(ms: seq<Message>, unit: nat)
    ensures UnitNamed(ms, Some(unit)) == if UnitNamed(ms, None).Some? then UnitNamed(ms, None) else Some(unit)
    decreases |ms|
  {
    if ms != [] && !ms[0].Unknown? {
      if ms[0].Identify? {
        LaterUnit(ms[1..], ms[0].unit);
      } else {
        LaterUnit(ms[1..], unit);
      }
    }
  }

  // A conversation

  /** The initiator sends the bytes one by one and drops attention with the last. */
  function Sent(bus: Bus, bytes: seq<Byte>): Bus
    requires Sound(bus) && bytes != []
    decreases |bytes|
  {
    var after := WriteInformation(bus, bytes[0], |bytes| == 1, true).0;
    if |bytes| == 1 || !Sound(after) then after else Sent(after, bytes[1..])
  }

  /** The initiator takes the bytes of the reply and acknowledges each. */
  function Heard(bus: Bus, count: nat): (Bus, seq<Byte>)
    requires Sound(bus)
    decreases count
  {
    if count == 0 then (bus, [])
    else
      var (after, got) := ReadInformation(bus, true);
      var acknowledged := AcknowledgeMessage(after, false);
      if got.Error? || got.value.None? || !Sound(acknowledged) then (acknowledged, [])
      else
        var (end, others) := Heard(acknowledged, count - 1);
        (end, [got.value.value] + others)
  }

  /** A target that listens to messages. */
  predicate Listens(bus: Bus) {
    Sound(bus) && bus.connection.Some? && bus.connection.value.phase == MessageOut
  }

  lemma StillSound(bus: Bus, c: Connection)
    requires Sound(bus) && bus.connection.Some? && c.targetId == bus.connection.value.targetId && ConnectionFits(c)
    ensures Sound(Connected(bus, c))
  {
    var slot :| bus.connection.value.targetId * 8 <= slot < bus.connection.value.targetId * 8 + 8 && bus.targets[slot].Some?;
    assert Connected(bus, c).targets[slot].Some?;
    hide TargetsSound, TransferSound;
  }

  lemma {:induction false} BytesGather(bus: Bus, bytes: seq<Byte>)
    requires Listens(bus) && bytes != [] && |bus.connection.value.messageOut| + |bytes| <= MESSAGE_LIMIT
    ensures var c := bus.connection.value;
            Sent(bus, bytes) == FinishMessageOut(Connected(bus, c.(messageOut := c.messageOut + bytes)))
    decreases |bytes|
  {
    var c := bus.connection.value;
    var heard := c.(messageOut := c.messageOut + [bytes[0]]);
    StillSound(bus, heard);
    hide Sound, FinishMessageOut;
    if |bytes| == 1 {
      assert bytes == [bytes[0]];
    } else {
      BytesGather(Connected(bus, heard), bytes[1..]);
      assert c.messageOut + [bytes[0]] + bytes[1..] == c.messageOut + bytes;
    }
  }

  /** ABORT by itself frees the bus. */
  lemma AbortFrees(bus: Bus)
    requires Listens(bus) && bus.connection.value.messageOut == []
    ensures Sent(bus, [6]) == bus.(connection := None, transaction := None)
  {
    BytesGather(bus, [6]);
    assert [] + [6] == [6];
    hide Sound;
  }

  /** What the target takes from messages: the unit, if one is named. */
  function Named(c: Connection, ms: seq<Message>): Connection {
    var unit := UnitNamed(ms, None);
    if unit.Some? then c.(lun := unit.value, identified := true) else c
  }

  lemma {:induction false} ReplyIsHeard(bus: Bus)
    requires Sound(bus) && bus.connection.Some? && bus.connection.value.phase == MessageIn
    requires var c := bus.connection.value; c.messageIn != [0] && c.messageOffset < |c.messageIn|
    ensures var c := bus.connection.value;
            Heard(bus, |c.messageIn| - c.messageOffset) ==
            (Connected(bus, c.(messageIn := [], messageOffset := 0, phase := c.returnPhase)), c.messageIn[c.messageOffset..])
    decreases |bus.connection.value.messageIn| - bus.connection.value.messageOffset
  {
    var c := bus.connection.value;
    var taken := c.(messageOffset := c.messageOffset + 1);
    var ended := c.(messageIn := [], messageOffset := 0, phase := c.returnPhase);
    StillSound(bus, taken);
    StillSound(bus, ended);
    assert c.messageIn[c.messageOffset..] == [c.messageIn[c.messageOffset]] + c.messageIn[c.messageOffset + 1..];
    hide Sound;
    if c.messageOffset + 1 < |c.messageIn| {
      ReplyIsHeard(Connected(bus, taken));
    } else {
      assert Heard(Connected(bus, ended), 0) == (Connected(bus, ended), []);
    }
  }

  /**
   Messages sent to a listening target are understood, its reply is heard byte by byte, and
   then it is in the phase that attention interrupted, with the unit that was named.
   */
  lemma ConversationReturns(bus: Bus, ms: seq<Message>)
    requires Listens(bus) && bus.connection.value.messageOut == [] && bus.connection.value.messageIn == []
    requires bus.connection.value.messageOffset == 0
    requires (forall m :: m in ms ==> Proper(m)) && 0 < |AllBytes(ms)| <= MESSAGE_LIMIT && AllBytes(ms) != [6]
    requires |Replies(ms)| <= MESSAGE_LIMIT
    ensures var c := bus.connection.value;
            var told := Sent(bus, AllBytes(ms));
            && Sound(told) && Heard(told, |Replies(ms)|) == (Connected(bus, Named(c, ms).(phase := c.returnPhase)), Replies(ms))
            && (PhaseAfter(told) == MessageIn <==> Replies(ms) != [] || c.returnPhase == MessageIn)
  {
    var told := Answered(bus, ms);
    hide *;
    if Replies(ms) != [] {
      ReplyIsHeard(told);
      assert Replies(ms)[0..] == Replies(ms);
    } else {
      NothingHeard(told);
    }
  }

  lemma NothingHeard(bus: Bus)
    requires Sound(bus)
    ensures Heard(bus, 0) == (bus, [])
  {
    hide Sound;
  }

  /** The target after messages that end with its attention dropped. */
  lemma Answered(bus: Bus, ms: seq<Message>) returns (told: Bus)
    requires Listens(bus) && bus.connection.value.messageOut == [] && bus.connection.value.messageIn == []
    requires bus.connection.value.messageOffset == 0
    requires (forall m :: m in ms ==> Proper(m)) && 0 < |AllBytes(ms)| <= MESSAGE_LIMIT && AllBytes(ms) != [6]
    requires |Replies(ms)| <= MESSAGE_LIMIT
    ensures var c := Named(bus.connection.value, ms);
            && told == Sent(bus, AllBytes(ms)) && Sound(told) && Replies(ms) != [0]
            && told == Connected(bus, if Replies(ms) == [] then c.(phase := c.returnPhase)
                                      else c.(messageIn := Replies(ms), messageOffset := 0, phase := MessageIn))
            && told.connection == Some(if Replies(ms) == [] then c.(phase := c.returnPhase)
                                       else c.(messageIn := Replies(ms), messageOffset := 0, phase := MessageIn))
            && c == c.(messageIn := [], messageOffset := 0) && c.returnPhase == bus.connection.value.returnPhase
            && Connected(told, c.(phase := c.returnPhase)) == Connected(bus, c.(phase := c.returnPhase))
            && (PhaseAfter(told) == MessageIn <==> Replies(ms) != [] || c.returnPhase == MessageIn)
  {
    var c := bus.connection.value;
    var bytes := AllBytes(ms);
    told := Sent(bus, bytes);
    BytesGather(bus, bytes);
    assert [] + bytes == bytes;
    MessagesAreUnderstood(ms, Messages(c.lun, c.identified, []));
    assert [] + Replies(ms) == Replies(ms);
    UnitIsSmall(ms, None);
    RepliesAreNotComplete(ms);
    var heard := Named(c, ms).(messageOut := []);
    StillSound(bus, heard.(phase := c.returnPhase));
    StillSound(bus, heard.(messageIn := Replies(ms), messageOffset := 0, phase := MessageIn));
    hide Sound, Parse, UnitNamed, AllBytes, Replies, Sent;
  }

  function PhaseAfter(bus: Bus): Phase {
    if bus.connection.Some? then bus.connection.value.phase else Command
  }

  lemma {:induction false} UnitIsSmall(ms: seq<Message>, before: Option<nat>)
    requires (forall m :: m in ms ==> Proper(m)) && (before.Some? ==> before.value < 8)
    ensures UnitNamed(ms, before).Some? ==> UnitNamed(ms, before).value < 8
    decreases |ms|
  {
    if ms != [] && !ms[0].Unknown? {
      assert Proper(ms[0]);
      UnitIsSmall(ms[1..], if ms[0].Identify? then Some(ms[0].unit) else before);
    }
  }

  lemma {:induction false} RepliesAreNotComplete(ms: seq<Message>)
    ensures Replies(ms) != [0]
  {
    if ms != [] && !ms[0].Unknown? && !ms[0].SynchronousTransfer? {
      RepliesAreNotComplete(ms[1..]);
    }
  }

  /** Attention brings a target to listen, from any phase but a message, and it will return to that phase. */
  lemma AttentionIsHeard(bus: Bus)
    requires Sound(bus) && bus.connection.Some? && !bus.connection.value.phase.MessageIn? && !bus.connection.value.phase.MessageOut?
    ensures var after := AssertAttention(bus);
            && Listens(after) && after.connection.value.messageOut == []
            && after == Connected(bus, bus.connection.value.(phase := MessageOut, messageOut := [],
                                                             returnPhase := bus.connection.value.phase))
  {
    StillSound(bus, bus.connection.value.(phase := MessageOut, messageOut := [], returnPhase := bus.connection.value.phase));
    hide Sound;
  }

  /** Attention while the target speaks cuts its message short, and it listens. */
  lemma AttentionInterrupts(bus: Bus)
    requires Sound(bus) && bus.connection.Some? && bus.connection.value.phase.MessageIn?
    ensures AssertAttention(bus) == bus
    ensures AcknowledgeMessage(bus, true) ==
            Connected(bus, bus.connection.value.(phase := MessageOut, messageIn := [], messageOffset := 0))
  {
  }

  // A logical unit that is not there

  /** Without IDENTIFY the short commands name their unit in the top bits of their second byte. */
  lemma UnitIsNamed(c: Connection)
    requires |c.cdb| >= 6
    ensures UnitOf(c) == if c.identified || c.cdb[0] >= 0x20 then c.lun else c.cdb[1] / 0x20
  {
  }

  /** The reply that tells INQUIRY that there is no such unit, and REQUEST SENSE that it is not supported. */
  predicate TellsOfNoUnit(opcode: Byte, reply: seq<Byte>) {
    if opcode == 0x12 then |reply| == 36 && reply[0] == 0x7f && reply[4] == 36 - 5
    else |reply| == 18 && reply[0] == 0x70 && reply[2] == 5 && reply[12] == 0x25 && reply[13] == 0
  }

  /** Those two commands get such a reply from the target, and all others are refused. */
  lemma MissingUnitAnswers(bus: Bus, cdb: seq<Byte>)
    requires Sound(bus) && bus.connection.Some? && bus.transaction.None? && |cdb| >= 6 && cdb[4] >= 36
    ensures var after := MissingUnit(bus, cdb);
            && after.connection.Some? && after.targets == bus.targets
            && var t := after.transaction;
            if cdb[0] == 0x12 || cdb[0] == 0x03 then
              && PhaseAfter(after) == DataIn && t.Some? && t.value.transfer.Immediate? && t.value.transfer.next == 0
              && t.value.transfer.finalStatus == Good && t.value.slot / 8 == bus.connection.value.targetId
              && TellsOfNoUnit(cdb[0], t.value.transfer.reply)
            else PhaseAfter(after) == StatusPhase && after.connection.value.status == CheckCondition && t.None?
  {
    var c := bus.connection.value;
    var slot :| c.targetId * 8 <= slot < c.targetId * 8 + 8 && bus.targets[slot].Some?;
    FirstIsNear(bus, c.targetId * 8, slot);
    RepliesTell(cdb[4]);
    hide Sound, TargetsSound, Truncated, FixedSense, TellsOfNoUnit;
  }

  lemma RepliesTell(allocation: Byte)
    requires allocation >= 36
    ensures TellsOfNoUnit(0x12, Truncated([0x7f, 0, 0, 0, 31] + seq(31, _ => 0), allocation))
    ensures TellsOfNoUnit(0x03, FixedSense(SenseData(5, 0x25, 0), allocation))
    ensures Truncated([0x7f, 0, 0, 0, 31] + seq(31, _ => 0), allocation) != [] && FixedSense(SenseData(5, 0x25, 0), allocation) != []
  {
  }

  lemma {:induction false} FirstIsNear(bus: Bus, from: nat, slot: nat)
    requires from <= slot < SLOTS && bus.targets[slot].Some?
    ensures from <= FirstUnit(bus, from) <= slot
    decreases slot - from
  {
    if bus.targets[from].None? {
      FirstIsNear(bus, from + 1, slot);
    }
  }
}
