/**
 How the mouse gathers what is asked of it, and when its bytes come: moves join as long
 as a 64-bit sum holds them, and bytes that follow one another do not drift.
 */
module MouseTiming {
  import opened Arithmetic
  import opened Options
  import opened CharacterTiming
  import opened Words
  import opened Mouse

  // Requests

  /** A button follows what is asked of it and no other does; a change is sent, and nothing else is. */
  lemma ButtonFollows(m: State, name: ButtonName, pressed: bool)
    ensures var after := SetButtonState(m, name, pressed);
            && after.buttons.left == (if name == Left then pressed else m.buttons.left)
            && after.buttons.middle == (if name == Middle then pressed else m.buttons.middle)
            && after.buttons.right == (if name == Right then pressed else m.buttons.right)
            && after == m.(buttons := after.buttons,
                           pending := if after.buttons == m.buttons then m.pending else m.pending + [Button(after.buttons)])
  {
  }

  /** A move joins motion that waits under the same buttons. */
  predicate Joins(m: State, dx: int, dy: int) {
    m.pending != [] &&
    var last := m.pending[|m.pending| - 1];
    last.Motion? && last.buttons == m.buttons && InI64(last.dx + dx) && InI64(last.dy + dy)
  }

  function WithLast(pending: seq<Segment>, last: Segment): seq<Segment>
    requires pending != []
  {
    pending[..|pending| - 1] + [last]
  }

  lemma MoveJoins(m: State, dx: Delta, dy: Delta)
    ensures MoveRelative(m, dx, dy) ==
            if dx == 0 && dy == 0 then m
            else if Joins(m, dx, dy) then
              var last := m.pending[|m.pending| - 1];
              m.(pending := WithLast(m.pending, Motion(m.buttons, last.dx + dx, last.dy + dy)))
            else m.(pending := m.pending + [Motion(m.buttons, dx, dy)])
  {
  }

  datatype Delta2 = Delta2(dx: Delta, dy: Delta)

  function Moved(m: State, moves: seq<Delta2>): State {
    if moves == [] then m
    else
      var before, last := Moved(m, moves[..|moves| - 1]), moves[|moves| - 1];
      MoveRelative(before, last.dx, last.dy)
  }

  function SumX(moves: seq<Delta2>): int {
    if moves == [] then 0 else SumX(moves[..|moves| - 1]) + moves[|moves| - 1].dx
  }

  function SumY(moves: seq<Delta2>): int {
    if moves == [] then 0 else SumY(moves[..|moves| - 1]) + moves[|moves| - 1].dy
  }

  /** Any number of moves under the same buttons are one, as long as the sums on the way hold. */
  lemma {:induction false} MovesJoin(m: State, x: int, y: int, moves: seq<Delta2>)
    requires m.pending != [] && m.pending[|m.pending| - 1] == Motion(m.buttons, x, y)
    requires forall n: nat :: n <= |moves| ==> InI64(x + SumX(moves[..n])) && InI64(y + SumY(moves[..n]))
    ensures Moved(m, moves) == m.(pending := WithLast(m.pending, Motion(m.buttons, x + SumX(moves), y + SumY(moves))))
  {
    hide MoveRelative, InI64;
    if moves == [] {
      SameLast(m.pending);
    } else {
      var most, last := moves[..|moves| - 1], moves[|moves| - 1];
      forall n: nat | n <= |most|
        ensures InI64(x + SumX(most[..n])) && InI64(y + SumY(most[..n]))
      {
        assert most[..n] == moves[..n];
      }
      MovesJoin(m, x, y, most);
      assert moves[..|moves|] == moves;
      OneMore(m, Moved(m, most), x + SumX(most), y + SumY(most), last.dx, last.dy);
      hide WithLast;
    }
  }

  lemma SameLast(pending: seq<Segment>)
    requires pending != []
    ensures WithLast(pending, pending[|pending| - 1]) == pending
  {
  }

  lemma OneMore(m: State, before: State, x: int, y: int, dx: Delta, dy: Delta)
    requires m.pending != [] && before == m.(pending := WithLast(m.pending, Motion(m.buttons, x, y)))
    requires InI64(x + dx) && InI64(y + dy)
    ensures MoveRelative(before, dx, dy) == m.(pending := WithLast(m.pending, Motion(m.buttons, x + dx, y + dy)))
  {
    MoveJoins(before, dx, dy);
    hide MoveRelative, InI64;
    assert WithLast(before.pending, Motion(m.buttons, x + dx, y + dy)) == WithLast(m.pending, Motion(m.buttons, x + dx, y + dy));
  }

  // Time

  /** The first character apart from those that follow it. */
  lemma {:induction false} FirstApart(length: nat, rest: nat, clock: nat, count: nat)
    requires clock > 0
    ensures TotalDuration(length, rest, clock, count + 1)
         == Duration(length, rest, clock) + TotalDuration(length, NextRest(length, rest, clock), clock, count)
    ensures RestAfter(length, rest, clock, count + 1) == RestAfter(length, NextRest(length, rest, clock), clock, count)
  {
    hide Duration, NextRest;
    if count == 0 {
      assert RestAfter(length, rest, clock, 1) == NextRest(length, RestAfter(length, rest, clock, 0), clock);
      assert TotalDuration(length, rest, clock, 1) == TotalDuration(length, rest, clock, 0) + Duration(length, rest, clock);
    } else {
      FirstApart(length, rest, clock, count - 1);
    }
  }

  /** The time of the n-th byte from an idle line with the given rest. */
  function ByteEnds(rest: nat, count: nat): nat {
    TotalDuration(FRAME_LENGTH, rest, BAUD, count)
  }

  /** The bytes out have ended, and the one on the line has not. */
  predicate OnTime(rest: nat, time: nat, after: State, count: nat) {
    && ByteEnds(rest, count) <= time
    && (if after.active.Some? then
          && time + after.active.value.remaining == ByteEnds(rest, count + 1) && after.active.value.remaining > 0
          && after.timingRemainder == RestAfter(FRAME_LENGTH, rest, BAUD, count + 1)
        else
          after.timingRemainder == RestAfter(FRAME_LENGTH, rest, BAUD, count) && after.packet.None? && after.pending == [])
  }

  /**
   From an idle line, as many bytes are out as have ended by the exact total of their frames,
   and the one on the line ends at the exact total too.
   */
  lemma {:induction false} BytesOnTime(m: State, elapsed: nat)
    requires m.Valid() && m.active.None?
    ensures var after := AdvanceTime(m, elapsed); OnTime(m.timingRemainder, elapsed, after.mouse, |after.output|)
    decreases Backlog(m.pending), BytesLeft(m.packet)
  {
    var m1 := EnsureActive(m);
    OneRound(m, elapsed);
    Begins(m);
    OneByte(m.timingRemainder);
    hide *;
    if m1.active.Some? && elapsed >= m1.active.value.remaining {
      var later := elapsed - m1.active.value.remaining;
      BytesOnTime(m1.(active := None), later);
      var after := AdvanceTime(m1.(active := None), later);
      OneEarlier(m.timingRemainder, later, after.mouse, |after.output|);
    } else {
      NoneEnded(m, elapsed, m1, AdvanceTime(m, elapsed).mouse);
    }
  }

  /** One round of the loop. */
  lemma OneRound(m: State, elapsed: nat)
    requires m.Valid() && m.active.None?
    ensures var m1, after := EnsureActive(m), AdvanceTime(m, elapsed);
            && m1.Valid() && m1.(active := None).Valid()
            && (if m1.active.None? then after.mouse == m1 && after.output == []
                else if elapsed < m1.active.value.remaining then
                  && after.mouse == m1.(active := Some(m1.active.value.(remaining := m1.active.value.remaining - elapsed)))
                  && after.output == []
                else
                  var rest := AdvanceTime(m1.(active := None), elapsed - m1.active.value.remaining);
                  && after.mouse == rest.mouse && |after.output| == 1 + |rest.output|
                  && (|| Backlog(m1.pending) < Backlog(m.pending)
                      || (m1.pending == m.pending && BytesLeft(m1.packet) < BytesLeft(m.packet))))
  {
    EnsureActiveProgresses(m);
    hide EnsureActive, Backlog, BytesLeft, NewPackets;
  }

  lemma NoneEnded(m: State, elapsed: nat, m1: State, after: State)
    requires if m1.active.None? then after == m1 && m.timingRemainder == m1.timingRemainder && m1.packet.None? && m1.pending == []
             else
               && elapsed < m1.active.value.remaining == ByteEnds(m.timingRemainder, 1)
               && m1.timingRemainder == RestAfter(FRAME_LENGTH, m.timingRemainder, BAUD, 1)
               && after == m1.(active := Some(m1.active.value.(remaining := m1.active.value.remaining - elapsed)))
    ensures OnTime(m.timingRemainder, elapsed, after, 0)
  {
    OneByte(m.timingRemainder);
    hide ByteEnds, RestAfter, Duration, NextRest;
  }

  lemma OneEarlier(rest: nat, time: nat, after: State, count: nat)
    requires OnTime(NextRest(FRAME_LENGTH, rest, BAUD), time, after, count)
    ensures OnTime(rest, time + Duration(FRAME_LENGTH, rest, BAUD), after, count + 1)
  {
    FirstApart(FRAME_LENGTH, rest, BAUD, count);
    FirstApart(FRAME_LENGTH, rest, BAUD, count + 1);
    hide Duration, NextRest, TotalDuration, RestAfter;
  }

  lemma Begins(m: State)
    requires m.Valid() && m.active.None?
    ensures var m1 := EnsureActive(m);
            if m.packet.None? && m.pending == [] then m1 == m
            else
              && m1.active.Some? && m1.active.value.remaining == Duration(FRAME_LENGTH, m.timingRemainder, BAUD)
              && m1.timingRemainder == NextRest(FRAME_LENGTH, m.timingRemainder, BAUD)
  {
    hide Duration, NextRest, Remainder, SegmentPacket;
  }

  lemma OneByte(rest: nat)
    ensures ByteEnds(rest, 0) == 0 && ByteEnds(rest, 1) == Duration(FRAME_LENGTH, rest, BAUD)
    ensures RestAfter(FRAME_LENGTH, rest, BAUD, 0) == rest
    ensures RestAfter(FRAME_LENGTH, rest, BAUD, 1) == NextRest(FRAME_LENGTH, rest, BAUD)
  {
    hide Duration, NextRest;
    assert RestAfter(FRAME_LENGTH, rest, BAUD, 0) == rest && TotalDuration(FRAME_LENGTH, rest, BAUD, 0) == 0;
  }

  /** A byte is ten bit times at 4800 baud: n of them, begun without a rest, end at n / 480 seconds, rounded down. */
  lemma ByteRate(count: nat)
    ensures ByteEnds(0, count) == count * ATTOSECONDS_PER_SECOND / 480
  {
    NoDrift(FRAME_LENGTH, 0, BAUD, count, count * FRAME_LENGTH);
    assert count * FRAME_LENGTH == count * ATTOSECONDS_PER_SECOND * 10;
    SameQuotient(count * ATTOSECONDS_PER_SECOND);
  }

  lemma SameQuotient(value: nat)
    ensures value * 10 / 4800 == value / 480
  {
  }
}
