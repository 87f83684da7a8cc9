/** The mouse device: a queue, a packet and a byte on the line, changed in place. */
module SgiMouseDevice {
  import opened Options
  import opened CharacterTiming
  import opened Mouse
  import opened Words

  class SgiMouse {
    var buttons: Buttons
    var pending: seq<Segment>
    var packet: Option<Packet>
    var active: Option<ActiveByte>
    var timingRemainder: nat

    function Value(): State
      reads this
    {
      State(buttons, pending, packet, active, timingRemainder)
    }

    predicate Valid()
      reads this
    {
      Value().Valid()
    }

    constructor ()
      ensures Value() == Initial
    {
      buttons, pending, packet, active, timingRemainder := Buttons(false, false, false), [], None, None, 0;
    }

    method Reset()
      modifies this
      ensures Value() == Initial
    {
      buttons, pending, packet, active, timingRemainder := Buttons(false, false, false), [], None, None, 0;
    }

    method Moved(dx: Delta, dy: Delta)
      modifies this`pending
      ensures Value() == MoveRelative(old(Value()), dx, dy)
    {
      if dx == 0 && dy == 0 {
        return;
      }
      if pending != [] {
        var last := pending[|pending| - 1];
        if last.Motion? && last.buttons == buttons && InI64(last.dx + dx) && InI64(last.dy + dy) {
          pending := pending[|pending| - 1 := Motion(buttons, last.dx + dx, last.dy + dy)];
          return;
        }
      }
      pending := pending + [Motion(buttons, dx, dy)];
    }

    method ButtonChanged(name: ButtonName, pressed: bool)
      modifies this`buttons, this`pending
      ensures Value() == SetButtonState(old(Value()), name, pressed)
    {
      if Pressed(buttons, name) == pressed {
        return;
      }
      buttons := WithButton(buttons, name, pressed);
      pending := pending + [Button(buttons)];
    }

    method Materialize()
      modifies this`pending, this`packet
      ensures Value() == MaterializePacket(old(Value()))
    {
      hide SegmentPacket, Remainder;
      if pending == [] {
        return;
      }
      var segment := pending[0];
      pending := Remainder(segment) + pending[1..];
      packet := Some(Packet(SegmentPacket(segment), 0));
    }

    method StartByte()
      requires Valid()
      modifies this
      ensures Value() == EnsureActive(old(Value()))
    {
      hide MaterializePacket, Duration, NextRest;
      if active.Some? {
        return;
      }
      FreshPacket(Value());
      if packet.None? {
        Materialize();
      }
      if packet.None? {
        return;
      }
      var current := packet.value;
      packet := if current.next + 1 == 5 then None else Some(current.(next := current.next + 1));
      active := Some(ActiveByte(current.bytes[current.next], Duration(FRAME_LENGTH, timingRemainder, BAUD)));
      timingRemainder := NextRest(FRAME_LENGTH, timingRemainder, BAUD);
    }

    /** Lets time pass and reports the finished bytes in order. */
    method Advance(elapsed: nat) returns (output: seq<Byte>)
      requires Valid()
      modifies this
      ensures Valid()
      ensures Value() == AdvanceTime(old(Value()), elapsed).mouse
      ensures output == AdvanceTime(old(Value()), elapsed).output
    {
      hide EnsureActive, NewPackets, Backlog, BytesLeft;
      var remaining: nat := elapsed;
      output := [];
      while true
        invariant Valid()
        invariant AdvanceTime(old(Value()), elapsed).mouse == AdvanceTime(Value(), remaining).mouse
        invariant AdvanceTime(old(Value()), elapsed).output == output + AdvanceTime(Value(), remaining).output
        decreases Backlog(pending), BytesLeft(packet), if active.Some? then 1 else 0
      {
        ghost var before := Value();
        EnsureActiveProgresses(before);
        KeepsButtons(before);
        StartByte();
        if active.None? {
          return;
        }
        var current := active.value;
        if remaining < current.remaining {
          active := Some(current.(remaining := current.remaining - remaining));
          return;
        }
        remaining := remaining - current.remaining;
        active := None;
        output := output + [current.value];
      }
    }
  }

  lemma FreshPacket(m: State)
    requires m.Valid()
    ensures MaterializePacket(m).packet.Some? && m.packet.None? ==> MaterializePacket(m).packet.value.next == 0
    ensures MaterializePacket(m).active == m.active && MaterializePacket(m).timingRemainder == m.timingRemainder
  {
  }
}
