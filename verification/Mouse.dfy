/**
 The SGI Indigo mouse: relative motion and button changes become five-byte
 serial packets.  Motion is coalesced and split again on the way; the main
 results say that nothing is lost or reordered: each button epoch carries exactly
 the motion requested during it, and the bytes sent are the packets' bytes.
 */
module Mouse {
  import opened Arithmetic
  import opened Options
  import opened CharacterTiming
  import opened Words

  const BAUD: nat := 4_800
  const FRAME_LENGTH: nat := 10 * ATTOSECONDS_PER_SECOND
  const I64_MIN := -0x8000_0000_0000_0000
  const I64_MAX := 0x7fff_ffff_ffff_ffff

  type Delta = x: int | -0x8000_0000 <= x < 0x8000_0000
  type PacketBytes = s: seq<Byte> | |s| == 5 witness [0, 0, 0, 0, 0]

  datatype Buttons = Buttons(left: bool, middle: bool, right: bool)
  datatype ButtonName = Left | Middle | Right

  datatype Segment =
    | Motion(buttons: Buttons, dx: int, dy: int)
    | Button(buttons: Buttons)

  datatype Packet = Packet(bytes: PacketBytes, next: nat)
  datatype ActiveByte = ActiveByte(value: Byte, remaining: nat)

  datatype State = State(
    buttons: Buttons,
    pending: seq<Segment>,
    packet: Option<Packet>,
    active: Option<ActiveByte>,
    timingRemainder: nat)
  {
    predicate Valid() {
      && (packet.Some? ==> packet.value.next < 5)
      && timingRemainder < BAUD
    }
  }

  const Initial := State(Buttons(false, false, false), [], None, None, 0)

  // Requests

  predicate InI64(value: int) {
    I64_MIN <= value <= I64_MAX
  }

  /** Motion joins the last segment of the same button state unless the sum would overflow. */
  function MoveRelative(m: State, dx: Delta, dy: Delta): State {
    if dx == 0 && dy == 0 then m
    else
      var last := |m.pending| - 1;
      if last >= 0 && m.pending[last].Motion? && m.pending[last].buttons == m.buttons
         && InI64(m.pending[last].dx + dx) && InI64(m.pending[last].dy + dy)
      then
        var joined := Motion(m.buttons, m.pending[last].dx + dx, m.pending[last].dy + dy);
        m.(pending := m.pending[last := joined])
      else m.(pending := m.pending + [Motion(m.buttons, dx, dy)])
  }

  function Pressed(buttons: Buttons, name: ButtonName): bool {
    match name
    case Left => buttons.left
    case Middle => buttons.middle
    case Right => buttons.right
  }

  function WithButton(buttons: Buttons, name: ButtonName, pressed: bool): Buttons {
    match name
    case Left => buttons.(left := pressed)
    case Middle => buttons.(middle := pressed)
    case Right => buttons.(right := pressed)
  }

  function SetButtonState(m: State, name: ButtonName, pressed: bool): State {
    if Pressed(m.buttons, name) == pressed then m
    else
      var buttons := WithButton(m.buttons, name, pressed);
      m.(buttons := buttons, pending := m.pending + [Button(buttons)])
  }

  // Packets

  function ClampToI8(value: int): (sample: int)
    ensures -128 <= sample <= 127
    ensures -128 <= value <= 127 ==> sample == value
  {
    if value < -128 then -128 else if value > 127 then 127 else value
  }

  /** The two signed samples of an axis, and how much of the value they use up. */
  function SplitAxis(value: int): (int, int, int) {
    var first := ClampToI8(value);
    var second := ClampToI8(value - first);
    (first, second, first + second)
  }

  function ButtonByte(buttons: Buttons): Byte {
    0x80 + (if buttons.left then 0 else 4) + (if buttons.middle then 0 else 2) + (if buttons.right then 0 else 1)
  }

  function AsByte(sample: int): Byte {
    sample % 256
  }

  function EncodePacket(buttons: Buttons, dx: int, dy: int): PacketBytes {
    var (x1, x2, _) := SplitAxis(dx);
    var (y1, y2, _) := SplitAxis(dy);
    [ButtonByte(buttons), AsByte(x1), AsByte(y1), AsByte(x2), AsByte(y2)]
  }

  /** Some motion under one button state. */
  datatype Item = Item(buttons: Buttons, dx: int, dy: int)

  function SegmentItem(segment: Segment): Item {
    match segment
    case Button(buttons) => Item(buttons, 0, 0)
    case Motion(buttons, dx, dy) => Item(buttons, dx, dy)
  }

  /** What one packet cannot carry of a segment. */
  function Remainder(segment: Segment): seq<Segment> {
    match segment
    case Button(_) => []
    case Motion(buttons, dx, dy) =>
      var usedX, usedY := SplitAxis(dx).2, SplitAxis(dy).2;
      if dx != usedX || dy != usedY then [Motion(buttons, dx - usedX, dy - usedY)] else []
  }

  function SegmentPacket(segment: Segment): PacketBytes {
    var item := SegmentItem(segment);
    EncodePacket(item.buttons, item.dx, item.dy)
  }

  /** Makes a packet of the first pending segment; what it cannot carry stays in front. */
  function MaterializePacket(m: State): State {
    if m.pending == [] then m
    else
      m.(pending := Remainder(m.pending[0]) + m.pending[1..],
         packet := Some(Packet(SegmentPacket(m.pending[0]), 0)))
  }

  /** Starts the next byte if the line is free. */
  function EnsureActive(m: State): State
    requires m.Valid()
  {
    if m.active.Some? then m
    else
      var m1 := if m.packet.None? then MaterializePacket(m) else m;
      if m1.packet.None? then m1
      else
        var packet := m1.packet.value;
        m1.(packet := if packet.next + 1 == 5 then None else Some(packet.(next := packet.next + 1)),
            active := Some(ActiveByte(packet.bytes[packet.next], Duration(FRAME_LENGTH, m1.timingRemainder, BAUD))),
            timingRemainder := NextRest(FRAME_LENGTH, m1.timingRemainder, BAUD))
  }

  /** The packet that `EnsureActive` makes, if it makes one. */
  function NewPackets(m: State): seq<PacketBytes> {
    if m.active.None? && m.packet.None? && m.pending != [] then [MaterializePacket(m).packet.value.bytes] else []
  }

  // Time

  datatype Advanced = Advanced(mouse: State, output: seq<Byte>, packets: seq<PacketBytes>)

  function Magnitude(value: int): nat {
    if value < 0 then -value else value
  }

  /** What a segment still has to send, counted so that every packet makes it smaller. */
  function Weight(segment: Segment): nat {
    match segment
    case Button(_) => 1
    case Motion(_, dx, dy) => 1 + Magnitude(dx) + Magnitude(dy)
  }

  function Backlog(pending: seq<Segment>): nat {
    if pending == [] then 0 else Weight(pending[0]) + Backlog(pending[1..])
  }

  function BytesLeft(packet: Option<Packet>): nat {
    if packet.Some? && packet.value.next <= 5 then 5 - packet.value.next else 0
  }

  /** Every packet makes the backlog smaller, although remainders go back in front. */
  lemma PacketShrinksBacklog(m: State)
    requires m.pending != []
    ensures Backlog(MaterializePacket(m).pending) < Backlog(m.pending)
  {
    var left, rest := Remainder(m.pending[0]), m.pending[1..];
    if left == [] {
      assert left + rest == rest;
    } else {
      assert (left + rest)[0] == left[0] && (left + rest)[1..] == rest;
    }
  }

  /** Lets time pass: finished bytes come out, and the packets made on the way are recorded. */
  function AdvanceTime(m: State, elapsed: nat): Advanced
    requires m.Valid()
    decreases Backlog(m.pending), BytesLeft(m.packet), if m.active.Some? then 1 else 0
  {
    EnsureActiveProgresses(m);
    var m1, made := EnsureActive(m), NewPackets(m);
    if m1.active.None? then Advanced(m1, [], made)
    else
      var active := m1.active.value;
      if elapsed < active.remaining then
        Advanced(m1.(active := Some(active.(remaining := active.remaining - elapsed))), [], made)
      else
        var rest := AdvanceTime(m1.(active := None), elapsed - active.remaining);
        Advanced(rest.mouse, [active.value] + rest.output, made + rest.packets)
  }

  lemma EnsureActiveProgresses(m: State)
    requires m.Valid()
    ensures EnsureActive(m).Valid()
    ensures m.active.None? && EnsureActive(m).active.Some? ==>
              || Backlog(EnsureActive(m).pending) < Backlog(m.pending)
              || (EnsureActive(m).pending == m.pending && BytesLeft(EnsureActive(m).packet) < BytesLeft(m.packet))
  {
    hide Backlog, SegmentPacket, Remainder, Duration;
    if m.active.None? && m.packet.None? && m.pending != [] {
      PacketShrinksBacklog(m);
    }
  }

  // What was asked for, and what packets say

  function SegmentItems(pending: seq<Segment>): (items: seq<Item>)
    ensures |items| == |pending|
  {
    seq(|pending|, i requires 0 <= i < |pending| => SegmentItem(pending[i]))
  }

  /** A byte as a signed sample. */
  function AsSample(value: Byte): int {
    if value < 128 then value else value - 256
  }

  function DecodeButtons(value: Byte): Buttons {
    Buttons(value / 4 % 2 == 0, value / 2 % 2 == 0, value % 2 == 0)
  }

  /** What the receiver of a packet understands. */
  function PacketItem(bytes: PacketBytes): Item {
    Item(DecodeButtons(bytes[0]), AsSample(bytes[1]) + AsSample(bytes[3]), AsSample(bytes[2]) + AsSample(bytes[4]))
  }

  function PacketItems(packets: seq<PacketBytes>): (items: seq<Item>)
    ensures |items| == |packets|
  {
    seq(|packets|, i requires 0 <= i < |packets| => PacketItem(packets[i]))
  }

  /** Adds to the motion of the last epoch, or starts a new one when the buttons differ. */
  function AddItem(epochs: seq<Item>, item: Item): (result: seq<Item>)
    requires epochs != []
    ensures result != []
  {
    var last := epochs[|epochs| - 1];
    if last.buttons == item.buttons then
      epochs[..|epochs| - 1] + [Item(item.buttons, last.dx + item.dx, last.dy + item.dy)]
    else epochs + [item]
  }

  /** The net motion of each button epoch, in order. */
  function Epochs(epochs: seq<Item>, items: seq<Item>): (result: seq<Item>)
    requires epochs != []
    ensures result != []
    decreases |items|
  {
    if items == [] then epochs else Epochs(AddItem(epochs, items[0]), items[1..])
  }

  const FirstEpoch: seq<Item> := [Item(Buttons(false, false, false), 0, 0)]

  lemma {:induction false} EpochsAdds(epochs: seq<Item>, a: seq<Item>, b: seq<Item>)
    requires epochs != []
    ensures Epochs(epochs, a + b) == Epochs(Epochs(epochs, a), b)
    decreases |a|
  {
    hide AddItem;
    if a == [] {
      assert a + b == b;
    } else {
      assert (a + b)[1..] == a[1..] + b;
      EpochsAdds(AddItem(epochs, a[0]), a[1..], b);
    }
  }

  /** Motion of one button state may be split or joined. */
  lemma SplitItem(epochs: seq<Item>, a: Item, b: Item, whole: Item)
    requires epochs != [] && a.buttons == b.buttons == whole.buttons
    requires whole.dx == a.dx + b.dx && whole.dy == a.dy + b.dy
    ensures AddItem(AddItem(epochs, a), b) == AddItem(epochs, whole)
  {
  }

  lemma TwoItems(epochs: seq<Item>, a: Item, b: Item)
    requires epochs != []
    ensures Epochs(epochs, [a]) == AddItem(epochs, a)
    ensures Epochs(epochs, [a, b]) == AddItem(AddItem(epochs, a), b)
  {
    hide AddItem;
    assert [a, b][1..] == [b];
    assert [a][1..] == [] && [b][1..] == [];
    assert Epochs(epochs, [a, b]) == Epochs(AddItem(epochs, a), [b]);
    assert Epochs(AddItem(epochs, a), [b]) == Epochs(AddItem(AddItem(epochs, a), b), []);
  }

  // A packet says what was taken

  lemma SampleRoundTrip(sample: int)
    requires -128 <= sample <= 127
    ensures AsSample(AsByte(sample)) == sample
  {
  }

  lemma ButtonRoundTrip(buttons: Buttons)
    ensures DecodeButtons(ButtonByte(buttons)) == buttons
  {
  }

  lemma PacketSays(buttons: Buttons, dx: int, dy: int)
    ensures PacketItem(EncodePacket(buttons, dx, dy)) == Item(buttons, SplitAxis(dx).2, SplitAxis(dy).2)
  {
    var (x1, x2, _) := SplitAxis(dx);
    var (y1, y2, _) := SplitAxis(dy);
    SampleRoundTrip(x1);
    SampleRoundTrip(x2);
    SampleRoundTrip(y1);
    SampleRoundTrip(y2);
    ButtonRoundTrip(buttons);
    hide AsByte, AsSample, ButtonByte, DecodeButtons, ClampToI8;
  }

  /** The signed byte nearest to a value. */
  predicate Nearest(sample: int, value: int) {
    -128 <= sample <= 127 && (sample == value || (sample == 127 && value > 127) || (sample == -128 && value < -128))
  }

  /** A header byte with the buttons low when pressed, and then as much of the motion as fits twice, x before y. */
  lemma SamplesInOrder(buttons: Buttons, dx: int, dy: int)
    ensures var bytes := EncodePacket(buttons, dx, dy);
            && 0x80 <= bytes[0] < 0x88
            && (bytes[0] / 4 % 2 == 0 <==> buttons.left) && (bytes[0] / 2 % 2 == 0 <==> buttons.middle)
            && (bytes[0] % 2 == 0 <==> buttons.right)
            && Nearest(AsSample(bytes[1]), dx) && Nearest(AsSample(bytes[3]), dx - AsSample(bytes[1]))
            && Nearest(AsSample(bytes[2]), dy) && Nearest(AsSample(bytes[4]), dy - AsSample(bytes[2]))
  {
    var (x1, x2, _) := SplitAxis(dx);
    var (y1, y2, _) := SplitAxis(dy);
    SampleRoundTrip(x1);
    SampleRoundTrip(x2);
    SampleRoundTrip(y1);
    SampleRoundTrip(y2);
    hide AsByte, AsSample;
  }

  /** A packet says a part of its segment, and the remainder is the rest of it. */
  lemma SegmentTakes(segment: Segment) returns (sent: Item, left: Item)
    ensures sent == PacketItem(SegmentPacket(segment)) && sent.buttons == SegmentItem(segment).buttons
    ensures left.buttons == sent.buttons
    ensures left.dx == SegmentItem(segment).dx - sent.dx && left.dy == SegmentItem(segment).dy - sent.dy
    ensures if Remainder(segment) == [] then sent == SegmentItem(segment)
            else |Remainder(segment)| == 1 && SegmentItem(Remainder(segment)[0]) == left
  {
    var item := SegmentItem(segment);
    PacketSays(item.buttons, item.dx, item.dy);
    NothingUsed();
    hide PacketItem, EncodePacket, SplitAxis;
    sent := PacketItem(SegmentPacket(segment));
    left := Item(item.buttons, item.dx - sent.dx, item.dy - sent.dy);
  }

  lemma RemainderItems(left: seq<Segment>, rest: seq<Segment>)
    ensures left == [] ==> left + rest == rest
    ensures |left| == 1 ==> SegmentItems(left + rest) == [SegmentItem(left[0])] + SegmentItems(rest)
  {
  }

  /** Making a packet moves motion from the backlog into the packet, no more and no less. */
  lemma MaterializeConserves(m: State, epochs: seq<Item>)
    requires m.pending != [] && epochs != []
    ensures MaterializePacket(m).packet.Some?
    ensures Epochs(epochs, [PacketItem(MaterializePacket(m).packet.value.bytes)] + SegmentItems(MaterializePacket(m).pending))
         == Epochs(epochs, SegmentItems(m.pending))
  {
    var segment := m.pending[0];
    var sent, left := SegmentTakes(segment);
    var item, rest := SegmentItem(segment), SegmentItems(m.pending[1..]);
    RemainderItems(Remainder(segment), m.pending[1..]);
    hide PacketItem, SegmentPacket, Remainder, SegmentItem, AddItem, Epochs;
    assert SegmentItems(m.pending) == [item] + rest;
    if Remainder(segment) != [] {
      assert [sent] + ([left] + rest) == [sent, left] + rest;
      EpochsAdds(epochs, [sent, left], rest);
      EpochsAdds(epochs, [item], rest);
      TwoItems(epochs, sent, left);
      TwoItems(epochs, item, left);
      SplitItem(epochs, sent, left, item);
    }
  }

  lemma NothingUsed()
    ensures SplitAxis(0).2 == 0
  {
  }

  lemma EnsureActiveConserves(m: State, epochs: seq<Item>)
    requires m.Valid() && epochs != []
    ensures Epochs(epochs, PacketItems(NewPackets(m)) + SegmentItems(EnsureActive(m).pending))
         == Epochs(epochs, SegmentItems(m.pending))
  {
    hide Epochs, MaterializePacket, SegmentItem, PacketItem;
    if m.active.None? && m.packet.None? && m.pending != [] {
      MaterializeConserves(m, epochs);
      var bytes := MaterializePacket(m).packet.value.bytes;
      assert PacketItems([bytes]) == [PacketItem(bytes)];
    } else {
      NothingToMake(m);
      assert PacketItems([]) + SegmentItems(m.pending) == SegmentItems(m.pending);
    }
  }

  lemma NothingToMake(m: State)
    requires m.Valid() && !(m.active.None? && m.packet.None? && m.pending != [])
    ensures EnsureActive(m).pending == m.pending && NewPackets(m) == []
  {
  }

  /** Time passing moves motion from the backlog into packets, epoch by epoch. */
  lemma {:induction false} AdvanceConserves(m: State, elapsed: nat, epochs: seq<Item>)
    requires m.Valid() && epochs != []
    ensures AdvanceTime(m, elapsed).mouse.Valid()
    ensures Epochs(epochs, PacketItems(AdvanceTime(m, elapsed).packets) + SegmentItems(AdvanceTime(m, elapsed).mouse.pending))
         == Epochs(epochs, SegmentItems(m.pending))
    decreases Backlog(m.pending), BytesLeft(m.packet), if m.active.Some? then 1 else 0
  {
    hide Epochs, EnsureActive, NewPackets, SegmentItem, PacketItem, Backlog, BytesLeft;
    EnsureActiveProgresses(m);
    EnsureActiveConserves(m, epochs);
    KeepsButtons(m);
    var m1, made := EnsureActive(m), NewPackets(m);
    if m1.active.Some? && elapsed >= m1.active.value.remaining {
      var m2 := m1.(active := None);
      var rest := AdvanceTime(m2, elapsed - m1.active.value.remaining);
      EpochsAdds(epochs, PacketItems(made), SegmentItems(m1.pending));
      var middle := Epochs(epochs, PacketItems(made));
      AdvanceConserves(m2, elapsed - m1.active.value.remaining, middle);
      EpochsAdds(epochs, PacketItems(made), PacketItems(rest.packets) + SegmentItems(rest.mouse.pending));
      assert PacketItems(made + rest.packets) == PacketItems(made) + PacketItems(rest.packets);
      assert PacketItems(made) + (PacketItems(rest.packets) + SegmentItems(rest.mouse.pending))
          == PacketItems(made + rest.packets) + SegmentItems(rest.mouse.pending);
    }
  }

  lemma KeepsButtons(m: State)
    requires m.Valid()
    ensures EnsureActive(m).buttons == m.buttons
    ensures m.active.Some? ==> EnsureActive(m) == m
  {
  }

  // The bytes sent

  /** The bytes of the current packet that have not been sent out yet. */
  function Unsent(m: State): seq<Byte>
    requires m.Valid()
  {
    (if m.active.Some? then [m.active.value.value] else [])
    + (if m.packet.Some? then m.packet.value.bytes[m.packet.value.next..] else [])
  }

  function Flatten(packets: seq<PacketBytes>): seq<Byte> {
    if packets == [] then [] else Flatten(packets[..|packets| - 1]) + packets[|packets| - 1]
  }

  lemma {:induction false} FlattenAdds(a: seq<PacketBytes>, b: seq<PacketBytes>)
    ensures Flatten(a + b) == Flatten(a) + Flatten(b)
    decreases |b|
  {
    if b == [] {
      assert a + b == a;
    } else {
      var rest, last := b[..|b| - 1], b[|b| - 1];
      assert (a + b)[..|a + b| - 1] == a + rest;
      FlattenAdds(a, rest);
    }
  }

  lemma EnsureActiveSends(m: State)
    requires m.Valid()
    ensures EnsureActive(m).Valid()
    ensures Unsent(EnsureActive(m)) == Unsent(m) + Flatten(NewPackets(m))
  {
    hide Remainder, SegmentPacket, Duration;
    if NewPackets(m) != [] {
      var bytes := SegmentPacket(m.pending[0]);
      assert NewPackets(m)[..0] == [];
      assert Flatten(NewPackets(m)) == bytes;
      assert bytes == [bytes[0]] + bytes[1..];
    } else if m.active.None? && m.packet.Some? {
      var bytes, next := m.packet.value.bytes, m.packet.value.next;
      assert bytes[next..] == [bytes[next]] + bytes[next + 1..];
    }
  }

  /** What comes out is the packets' bytes, in order, none lost and none twice. */
  lemma {:induction false} AdvanceSends(m: State, elapsed: nat)
    requires m.Valid()
    ensures AdvanceTime(m, elapsed).mouse.Valid()
    ensures Unsent(m) + Flatten(AdvanceTime(m, elapsed).packets)
         == AdvanceTime(m, elapsed).output + Unsent(AdvanceTime(m, elapsed).mouse)
    decreases Backlog(m.pending), BytesLeft(m.packet), if m.active.Some? then 1 else 0
  {
    hide EnsureActive, NewPackets, Flatten, Backlog, BytesLeft;
    EnsureActiveProgresses(m);
    EnsureActiveSends(m);
    KeepsButtons(m);
    var m1, made := EnsureActive(m), NewPackets(m);
    if m1.active.Some? && elapsed >= m1.active.value.remaining {
      var m2 := m1.(active := None);
      var rest := AdvanceTime(m2, elapsed - m1.active.value.remaining);
      AdvanceSends(m2, elapsed - m1.active.value.remaining);
      FlattenAdds(made, rest.packets);
      var value := m1.active.value.value;
      assert Unsent(m1) == [value] + Unsent(m2);
      Regroup(Unsent(m), Flatten(made), Flatten(rest.packets), [value], Unsent(m2), rest.output, Unsent(rest.mouse));
    } else if m1.active.Some? {
      var active := m1.active.value;
      assert Unsent(m1.(active := Some(active.(remaining := active.remaining - elapsed)))) == Unsent(m1);
    }
  }

  lemma Regroup(unsent: seq<Byte>, made: seq<Byte>, later: seq<Byte>, value: seq<Byte>, left: seq<Byte>,
                output: seq<Byte>, end: seq<Byte>)
    requires unsent + made == value + left && left + later == output + end
    ensures unsent + (made + later) == (value + output) + end
  {
    assert unsent + (made + later) == (unsent + made) + later;
    assert (value + left) + later == value + (left + later);
    assert value + (output + end) == (value + output) + end;
  }

  // Splitting time

  lemma EnsureActiveTwice(m: State, remaining: nat)
    requires m.Valid() && EnsureActive(m).active.Some?
    ensures var m1 := EnsureActive(m);
            var m2 := m1.(active := Some(m1.active.value.(remaining := remaining)));
            EnsureActive(m2) == m2 && NewPackets(m2) == []
  {
  }

  lemma NothingToSend(m: State)
    requires m.Valid() && EnsureActive(m).active.None?
    ensures EnsureActive(m) == m && NewPackets(m) == [] && m.pending == [] && m.packet.None?
  {
  }

  lemma IdleAdvance(m: State, elapsed: nat)
    requires m.Valid() && EnsureActive(m).active.None?
    ensures AdvanceTime(m, elapsed) == Advanced(m, [], [])
  {
    NothingToSend(m);
  }

  function Then(first: Advanced, second: Advanced): Advanced {
    Advanced(second.mouse, first.output + second.output, first.packets + second.packets)
  }

  /** Letting time pass twice is letting the sum pass once: same bytes, same packets, same state. */
  lemma {:induction false} AdvanceAdds(m: State, a: nat, b: nat)
    requires m.Valid()
    ensures AdvanceTime(m, a).mouse.Valid()
    ensures AdvanceTime(m, a + b) == Then(AdvanceTime(m, a), AdvanceTime(AdvanceTime(m, a).mouse, b))
    decreases Backlog(m.pending), BytesLeft(m.packet), if m.active.Some? then 1 else 0
  {
    EnsureActiveProgresses(m);
    hide EnsureActive, NewPackets, Backlog, BytesLeft;
    KeepsButtons(m);
    var m1, made := EnsureActive(m), NewPackets(m);
    if m1.active.None? {
      IdleAdvance(m, a);
      IdleAdvance(m, b);
      IdleAdvance(m, a + b);
    } else {
      var active := m1.active.value;
      if a < active.remaining {
        SplitInCharacter(m, a, b);
      } else {
        var m2, c := m1.(active := None), a - active.remaining;
        AdvanceAdds(m2, c, b);
        SplitAfterCharacter(m, m2, AdvanceTime(m2, c), AdvanceTime(AdvanceTime(m2, c).mouse, b), a, c, b);
      }
    }
  }

  lemma SplitAfterCharacter(m: State, m2: State, first: Advanced, second: Advanced, a: nat, c: nat, b: nat)
    requires m.Valid() && EnsureActive(m).active.Some? && m2.Valid() && first.mouse.Valid()
    requires m2 == EnsureActive(m).(active := None) && a == c + EnsureActive(m).active.value.remaining
    requires first == AdvanceTime(m2, c) && second == AdvanceTime(first.mouse, b)
    requires AdvanceTime(m2, c + b) == Then(first, second)
    ensures AdvanceTime(m, a).mouse.Valid()
    ensures AdvanceTime(m, a + b) == Then(AdvanceTime(m, a), AdvanceTime(AdvanceTime(m, a).mouse, b))
  {
    hide EnsureActive, NewPackets;
    var m1, made := EnsureActive(m), NewPackets(m);
    var active := m1.active.value;
    assert AdvanceTime(m, a) == Advanced(first.mouse, [active.value] + first.output, made + first.packets);
    assert AdvanceTime(m, a + b)
        == Advanced(second.mouse, [active.value] + (first.output + second.output),
                    made + (first.packets + second.packets));
    assert [active.value] + (first.output + second.output) == ([active.value] + first.output) + second.output;
    assert made + (first.packets + second.packets) == (made + first.packets) + second.packets;
  }

  lemma SplitInCharacter(m: State, a: nat, b: nat)
    requires m.Valid() && EnsureActive(m).Valid() && EnsureActive(m).active.Some?
    requires a < EnsureActive(m).active.value.remaining
    ensures AdvanceTime(m, a).mouse.Valid()
    ensures AdvanceTime(m, a + b) == Then(AdvanceTime(m, a), AdvanceTime(AdvanceTime(m, a).mouse, b))
  {
    var m1 := EnsureActive(m);
    var left := m1.active.value.remaining - a;
    var later := m1.(active := Some(m1.active.value.(remaining := left)));
    EnsureActiveTwice(m, left);
    StopsInCharacter(m, a);
    CharacterGoesOn(m, later, a, b);
    hide AdvanceTime, EnsureActive, NewPackets;
    assert [] + AdvanceTime(later, b).output == AdvanceTime(later, b).output;
  }

  /** Time that ends within a character. */
  lemma StopsInCharacter(m: State, a: nat)
    requires m.Valid() && EnsureActive(m).active.Some? && a < EnsureActive(m).active.value.remaining
    ensures var m1 := EnsureActive(m);
            AdvanceTime(m, a) ==
            Advanced(m1.(active := Some(m1.active.value.(remaining := m1.active.value.remaining - a))), [], NewPackets(m))
  {
    EnsureActiveProgresses(m);
    hide EnsureActive, NewPackets;
  }

  /** The rest of the character takes the rest of the time. */
  lemma CharacterGoesOn(m: State, later: State, a: nat, b: nat)
    requires m.Valid() && EnsureActive(m).Valid() && EnsureActive(m).active.Some? && later.Valid()
    requires a < EnsureActive(m).active.value.remaining && EnsureActive(later) == later && NewPackets(later) == []
    requires var m1 := EnsureActive(m);
             later == m1.(active := Some(m1.active.value.(remaining := m1.active.value.remaining - a)))
    ensures AdvanceTime(m, a + b).mouse == AdvanceTime(later, b).mouse
    ensures AdvanceTime(m, a + b).output == AdvanceTime(later, b).output
    ensures AdvanceTime(m, a + b).packets == NewPackets(m) + AdvanceTime(later, b).packets
  {
    var m1 := EnsureActive(m);
    var active := m1.active.value;
    EnsureActiveProgresses(m);
    hide EnsureActive, NewPackets, State.Valid;
    assert later.(active := None) == m1.(active := None);
    if a + b < active.remaining {
      assert NewPackets(m) + [] == NewPackets(m);
    } else {
      var rest := AdvanceTime(m1.(active := None), a + b - active.remaining);
      assert [] + rest.packets == rest.packets;
    }
  }

  // Runs

  datatype Operation =
    | Move(dx: Delta, dy: Delta)
    | SetButton(name: ButtonName, pressed: bool)
    | Elapse(time: nat)

  /** A mouse with everything asked of it, every packet made and every byte sent. */
  datatype Record = Record(mouse: State, requests: seq<Item>, packets: seq<PacketBytes>, output: seq<Byte>)

  const Start: Record := Record(Initial, [], [], [])

  function Step(r: Record, operation: Operation): Record
    requires r.mouse.Valid()
  {
    match operation
    case Move(dx, dy) =>
      r.(mouse := MoveRelative(r.mouse, dx, dy), requests := r.requests + [Item(r.mouse.buttons, dx, dy)])
    case SetButton(name, pressed) =>
      var mouse := SetButtonState(r.mouse, name, pressed);
      r.(mouse := mouse, requests := r.requests + [Item(mouse.buttons, 0, 0)])
    case Elapse(time) =>
      var advanced := AdvanceTime(r.mouse, time);
      r.(mouse := advanced.mouse, packets := r.packets + advanced.packets, output := r.output + advanced.output)
  }

  predicate LastButtons(items: seq<Item>, buttons: Buttons) {
    var epochs := Epochs(FirstEpoch, items);
    epochs[|epochs| - 1].buttons == buttons
  }

  /**
   Packets made and backlog carry, epoch by epoch, the motion requested; the
   bytes out are the packets' bytes.
   */
  predicate Conserved(r: Record) {
    && r.mouse.Valid()
    && Epochs(FirstEpoch, PacketItems(r.packets) + SegmentItems(r.mouse.pending)) == Epochs(FirstEpoch, r.requests)
    && LastButtons(r.requests, r.mouse.buttons)
    && Flatten(r.packets) == r.output + Unsent(r.mouse)
  }

  lemma EpochsAppend(epochs: seq<Item>, items: seq<Item>, item: Item)
    requires epochs != []
    ensures Epochs(epochs, items + [item]) == AddItem(Epochs(epochs, items), item)
  {
    EpochsAdds(epochs, items, [item]);
    TwoItems(Epochs(epochs, items), item, item);
  }

  lemma AppendedButtons(items: seq<Item>, item: Item)
    ensures LastButtons(items + [item], item.buttons)
  {
    EpochsAppend(FirstEpoch, items, item);
  }

  /** No motion under the current buttons is no request. */
  lemma NoRequest(items: seq<Item>, buttons: Buttons)
    requires LastButtons(items, buttons)
    ensures Epochs(FirstEpoch, items + [Item(buttons, 0, 0)]) == Epochs(FirstEpoch, items)
  {
    EpochsAppend(FirstEpoch, items, Item(buttons, 0, 0));
  }

  /** A request that goes to the end of the backlog, joined or not. */
  lemma AppendConserves(packets: seq<Item>, before: seq<Segment>, after: seq<Segment>, requests: seq<Item>, item: Item)
    requires Epochs(FirstEpoch, packets + SegmentItems(before)) == Epochs(FirstEpoch, requests)
    requires SegmentItems(after) == SegmentItems(before) + [item]
          || (before != [] && |after| == |before| && after[..|before| - 1] == before[..|before| - 1]
              && var a, b := SegmentItem(before[|before| - 1]), SegmentItem(after[|before| - 1]);
                 a.buttons == item.buttons == b.buttons && b.dx == a.dx + item.dx && b.dy == a.dy + item.dy)
    ensures Epochs(FirstEpoch, packets + SegmentItems(after)) == Epochs(FirstEpoch, requests + [item])
  {
    hide AddItem, SegmentItem, Epochs;
    EpochsAppend(FirstEpoch, requests, item);
    if SegmentItems(after) == SegmentItems(before) + [item] {
      EpochsAppend(FirstEpoch, packets + SegmentItems(before), item);
      assert packets + SegmentItems(after) == (packets + SegmentItems(before)) + [item];
    } else {
      var n := |before| - 1;
      var front := packets + SegmentItems(before[..n]);
      assert packets + SegmentItems(before) == front + [SegmentItem(before[n])];
      assert packets + SegmentItems(after) == front + [SegmentItem(after[n])];
      EpochsAppend(FirstEpoch, front, SegmentItem(before[n]));
      EpochsAppend(FirstEpoch, front, SegmentItem(after[n]));
      SplitItem(Epochs(FirstEpoch, front), SegmentItem(before[n]), item, SegmentItem(after[n]));
    }
  }

  lemma MoveConserves(r: Record, dx: Delta, dy: Delta)
    requires Conserved(r)
    ensures Conserved(Step(r, Move(dx, dy)))
  {
    hide Epochs, Flatten, LastButtons, PacketItem;
    var item := Item(r.mouse.buttons, dx, dy);
    AppendedButtons(r.requests, item);
    if dx == 0 && dy == 0 {
      NoRequest(r.requests, r.mouse.buttons);
    } else {
      AppendConserves(PacketItems(r.packets), r.mouse.pending, MoveRelative(r.mouse, dx, dy).pending, r.requests, item);
    }
  }

  lemma ButtonConserves(r: Record, name: ButtonName, pressed: bool)
    requires Conserved(r)
    ensures Conserved(Step(r, SetButton(name, pressed)))
  {
    hide Epochs, Flatten, LastButtons, PacketItem, WithButton, Pressed;
    var mouse := SetButtonState(r.mouse, name, pressed);
    var item := Item(mouse.buttons, 0, 0);
    AppendedButtons(r.requests, item);
    if mouse == r.mouse {
      NoRequest(r.requests, r.mouse.buttons);
    } else {
      AppendConserves(PacketItems(r.packets), r.mouse.pending, mouse.pending, r.requests, item);
    }
  }

  lemma ElapseConserves(r: Record, time: nat)
    requires Conserved(r)
    ensures Conserved(Step(r, Elapse(time)))
  {
    hide Epochs, Flatten, LastButtons, PacketItem, AdvanceTime, SegmentItem;
    var advanced := AdvanceTime(r.mouse, time);
    var before := PacketItems(r.packets);
    AdvanceConserves(r.mouse, time, Epochs(FirstEpoch, before));
    EpochsAdds(FirstEpoch, before, SegmentItems(r.mouse.pending));
    EpochsAdds(FirstEpoch, before, PacketItems(advanced.packets) + SegmentItems(advanced.mouse.pending));
    assert PacketItems(r.packets + advanced.packets) == before + PacketItems(advanced.packets);
    assert before + (PacketItems(advanced.packets) + SegmentItems(advanced.mouse.pending))
        == PacketItems(r.packets + advanced.packets) + SegmentItems(advanced.mouse.pending);
    AdvanceSends(r.mouse, time);
    AdvanceKeepsButtons(r.mouse, time);
    FlattenAdds(r.packets, advanced.packets);
    Regroup2(r.output, Unsent(r.mouse), Flatten(advanced.packets), advanced.output, Unsent(advanced.mouse));
  }

  lemma Regroup2(output: seq<Byte>, unsent: seq<Byte>, made: seq<Byte>, more: seq<Byte>, end: seq<Byte>)
    requires unsent + made == more + end
    ensures (output + unsent) + made == (output + more) + end
  {
    assert (output + unsent) + made == output + (unsent + made);
    assert output + (more + end) == (output + more) + end;
  }

  lemma {:induction false} AdvanceKeepsButtons(m: State, elapsed: nat)
    requires m.Valid()
    ensures AdvanceTime(m, elapsed).mouse.buttons == m.buttons
    decreases Backlog(m.pending), BytesLeft(m.packet), if m.active.Some? then 1 else 0
  {
    hide EnsureActive, NewPackets, Backlog, BytesLeft;
    EnsureActiveProgresses(m);
    KeepsButtons(m);
    var m1 := EnsureActive(m);
    if m1.active.Some? && elapsed >= m1.active.value.remaining {
      AdvanceKeepsButtons(m1.(active := None), elapsed - m1.active.value.remaining);
    }
  }

  function Run(operations: seq<Operation>): (r: Record)
    ensures Conserved(r)
  {
    if operations == [] then Start
    else
      var before := Run(operations[..|operations| - 1]);
      StepConserves(before, operations[|operations| - 1]);
      Step(before, operations[|operations| - 1])
  }

  lemma StepConserves(r: Record, operation: Operation)
    requires Conserved(r)
    ensures Conserved(Step(r, operation))
  {
    hide Conserved, Step;
    match operation
    case Move(dx, dy) => MoveConserves(r, dx, dy);
    case SetButton(name, pressed) => ButtonConserves(r, name, pressed);
    case Elapse(time) => ElapseConserves(r, time);
  }

  /** Whatever is done, no motion is lost, invented or moved across a button change. */
  lemma MotionIsConserved(operations: seq<Operation>)
    ensures var r := Run(operations);
            && Epochs(FirstEpoch, PacketItems(r.packets) + SegmentItems(r.mouse.pending)) == Epochs(FirstEpoch, r.requests)
            && Flatten(r.packets) == r.output + Unsent(r.mouse)
            && (r.mouse.pending == [] ==>
                  Epochs(FirstEpoch, PacketItems(r.packets)) == Epochs(FirstEpoch, r.requests))
  {
    hide Epochs, Flatten, Run;
    var r := Run(operations);
    if r.mouse.pending == [] {
      assert PacketItems(r.packets) + SegmentItems([]) == PacketItems(r.packets);
    }
  }

  // Draining

  const CHARACTER_BOUND: nat := 2_083_333_333_333_334

  lemma DurationBound(rest: nat, baud: nat)
    requires rest < baud && baud == BAUD
    ensures Duration(FRAME_LENGTH, rest, baud) <= CHARACTER_BOUND
  {
    var total := FRAME_LENGTH + rest;
    assert total / 4800 <= 2_083_333_333_333_334;
  }

  /** How many bytes are still to come, at most. */
  function BytesBound(m: State): nat {
    5 * Backlog(m.pending) + BytesLeft(m.packet) + (if m.active.Some? then 1 else 0)
  }

  predicate WithinBound(m: State) {
    m.active.Some? ==> m.active.value.remaining <= CHARACTER_BOUND
  }

  lemma EnsureActiveBound(m: State)
    requires m.Valid() && WithinBound(m)
    ensures EnsureActive(m).Valid() && WithinBound(EnsureActive(m))
    ensures BytesBound(EnsureActive(m)) <= BytesBound(m)
  {
    hide Backlog, SegmentPacket, Remainder, Duration;
    DurationBound(m.timingRemainder, BAUD);
    if m.active.None? && m.packet.None? && m.pending != [] {
      PacketShrinksBacklog(m);
    }
  }

  /** Enough time empties any backlog. */
  lemma {:induction false} Drains(m: State, elapsed: nat)
    requires m.Valid() && WithinBound(m) && elapsed >= BytesBound(m) * CHARACTER_BOUND
    ensures var after := AdvanceTime(m, elapsed).mouse;
            after.pending == [] && after.packet.None? && after.active.None?
    decreases Backlog(m.pending), BytesLeft(m.packet), if m.active.Some? then 1 else 0
  {
    EnsureActiveProgresses(m);
    EnsureActiveBound(m);
    var m1 := EnsureActive(m);
    if m1.active.None? {
      NothingToSend(m);
    } else {
      hide EnsureActive, NewPackets, Backlog, BytesLeft;
      KeepsButtons(m);
      var m2 := m1.(active := None);
      OneByteLess(m1, m2, elapsed, BytesBound(m));
      Drains(m2, elapsed - m1.active.value.remaining);
    }
  }

  lemma OneByteLess(m1: State, m2: State, elapsed: nat, bound: nat)
    requires m1.active.Some? && m2 == m1.(active := None) && WithinBound(m1)
    requires BytesBound(m1) <= bound && elapsed >= bound * CHARACTER_BOUND
    ensures elapsed >= m1.active.value.remaining
    ensures elapsed - m1.active.value.remaining >= BytesBound(m2) * CHARACTER_BOUND
  {
    assert BytesBound(m2) == BytesBound(m1) - 1;
    hide BytesBound;
    assert (BytesBound(m2) + 1) * CHARACTER_BOUND <= bound * CHARACTER_BOUND;
  }
}
