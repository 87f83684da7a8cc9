/**
 Interrupts under service in the Z85230.  Acknowledged interrupts nest: while one
 is under service only a more urgent one can be acknowledged, so the one retired
 first is the one acknowledged last.  The record keeps, beside the controller, the
 acknowledgements not yet retired, in the order they were made.
 */
module Interrupts {
  import opened Options
  import opened SerialChannel

  const SOURCES := 4
  const MASTER_INTERRUPT_ENABLE: bv8 := 0x08
  const SOFTWARE_ACKNOWLEDGE: bv8 := 0x20

  /** Sources in priority order: A receive, A transmit, B receive, B transmit. */
  type Source = i: nat | i < 4
  type Flags = s: seq<bool> | |s| == 4 witness [false, false, false, false]

  datatype State = State(channelA: Channel, channelB: Channel, masterControl: bv8, underService: Flags)

  function SourceChannel(s: State, source: Source): Channel {
    if source < 2 then s.channelA else s.channelB
  }

  predicate Requested(s: State, source: Source) {
    var c := SourceChannel(s, source);
    if source % 2 == 0 then ReceiveInterruptPending(c) else c.transmitInterruptPending && TransmitInterruptEnabled(c)
  }

  /** The first source from some point of the order on, unless one under service comes before it. */
  function HighestFrom(s: State, source: nat): Option<Source>
    decreases SOURCES - source
  {
    if source >= SOURCES then None
    else if s.underService[source] then None
    else if Requested(s, source) then Some(source)
    else HighestFrom(s, source + 1)
  }

  function HighestPending(s: State): Option<Source> {
    HighestFrom(s, 0)
  }

  predicate InterruptAsserted(s: State) {
    s.masterControl & MASTER_INTERRUPT_ENABLE != 0 && HighestPending(s).Some?
  }

  /** The read of the vector register that acknowledges, if acknowledging is enabled. */
  function Acknowledged(s: State): Option<Source> {
    if s.masterControl & SOFTWARE_ACKNOWLEDGE != 0 then HighestPending(s) else None
  }

  function Acknowledge(s: State): State {
    var source := Acknowledged(s);
    if source.None? then s else s.(underService := s.underService[source.value := true])
  }

  function FirstUnderService(flags: Flags, source: nat): Option<Source>
    decreases SOURCES - source
  {
    if source >= SOURCES then None
    else if flags[source] then Some(source)
    else FirstUnderService(flags, source + 1)
  }

  function ResetHighest(s: State): State {
    var first := FirstUnderService(s.underService, 0);
    if first.None? then s else s.(underService := s.underService[first.value := false])
  }

  function ResetA(s: State): State {
    s.(channelA := ResetChannel, underService := [false, false] + s.underService[2..])
  }

  function ResetB(s: State): State {
    s.(channelB := ResetChannel, underService := s.underService[..2] + [false, false])
  }

  function ResetChip(s: State): State {
    s.(channelA := ResetChannel, channelB := ResetChannel, underService := [false, false, false, false])
  }

  datatype ResetCommand = NoReset | ChannelBReset | ChannelAReset | ChipReset

  /** The reset that a write of the master control asks for. */
  function MasterReset(value: bv8): ResetCommand {
    var command := value & 0xc0;
    if command == 0x40 then ChannelBReset else if command == 0x80 then ChannelAReset
    else if command == 0xc0 then ChipReset else NoReset
  }

  function ApplyReset(s: State, command: ResetCommand): State {
    match command
    case NoReset => s
    case ChannelBReset => ResetB(s)
    case ChannelAReset => ResetA(s)
    case ChipReset => ResetChip(s)
  }

  function WriteMasterControl(s: State, value: bv8): State {
    ApplyReset(s, MasterReset(value)).(masterControl := value & 0x3f)
  }

  // Runs

  datatype Operation =
    | ReadVector
    | ResetHighestUnderService
    | WriteMaster(value: bv8)
    | ChannelChanges(toA: bool, channel: Channel)

  /** The controller and its unretired acknowledgements, oldest first. */
  datatype Record = Record(state: State, unretired: seq<Source>)

  function Without(stack: seq<Source>, source: nat): seq<Source> {
    if stack == [] then []
    else if stack[|stack| - 1] == source then Without(stack[..|stack| - 1], source)
    else Without(stack[..|stack| - 1], source) + [stack[|stack| - 1]]
  }

  function AfterReset(stack: seq<Source>, command: ResetCommand): seq<Source> {
    match command
    case NoReset => stack
    case ChannelBReset => Without(Without(stack, 2), 3)
    case ChannelAReset => Without(Without(stack, 0), 1)
    case ChipReset => []
  }

  /** A flag that goes off retires its acknowledgement; one that goes on is the newest. */
  function Step(r: Record, operation: Operation): Record {
    match operation
    case ReadVector =>
      var source := Acknowledged(r.state);
      Record(Acknowledge(r.state), if source.None? then r.unretired else r.unretired + [source.value])
    case ResetHighestUnderService =>
      var first := FirstUnderService(r.state.underService, 0);
      Record(ResetHighest(r.state), if first.None? then r.unretired else Without(r.unretired, first.value))
    case WriteMaster(value) =>
      Record(WriteMasterControl(r.state, value), AfterReset(r.unretired, MasterReset(value)))
    case ChannelChanges(toA, channel) =>
      Record(if toA then r.state.(channelA := channel) else r.state.(channelB := channel), r.unretired)
  }

  /** Later acknowledgements are more urgent, and exactly the unretired ones are under service. */
  predicate Nested(r: Record) {
    && (forall i: nat, j: nat :: i < j < |r.unretired| ==> r.unretired[j] < r.unretired[i])
    && (forall source: Source :: r.state.underService[source] <==> source in r.unretired)
  }

  predicate Increasing(stack: seq<Source>) {
    forall i: nat, j: nat :: i < j < |stack| ==> stack[j] < stack[i]
  }

  lemma {:induction false} WithoutKeepsOrder(stack: seq<Source>, source: nat)
    requires Increasing(stack)
    ensures Increasing(Without(stack, source))
    ensures forall other: Source :: other in Without(stack, source) <==> other in stack && other != source
  {
    if stack != [] {
      var rest, last := stack[..|stack| - 1], stack[|stack| - 1];
      WithoutKeepsOrder(rest, source);
      assert stack == rest + [last];
      forall other: Source | other in rest
        ensures last < other
      {
        var i :| 0 <= i < |rest| && rest[i] == other;
        assert stack[i] == other;
      }
      var kept := Without(rest, source);
      forall i: nat | i < |kept|
        ensures last < kept[i]
      {
        assert kept[i] in kept;
      }
    }
  }

  /** The first source of a run of the order, and nothing under service before it. */
  lemma {:induction false} HighestIs(s: State, from: nat)
    ensures var highest := HighestFrom(s, from);
            if highest.Some? then
              && from <= highest.value && Requested(s, highest.value)
              && (forall i: Source :: from <= i <= highest.value ==> !s.underService[i])
              && (forall i: Source :: from <= i < highest.value ==> !Requested(s, i))
            else
              forall i: Source :: from <= i && Requested(s, i) ==>
                exists j: Source :: from <= j <= i && s.underService[j]
    decreases SOURCES - from
  {
    hide Requested;
    if from < SOURCES && !s.underService[from] && !Requested(s, from) {
      HighestIs(s, from + 1);
    }
  }

  lemma {:induction false} FirstIs(flags: Flags, from: nat)
    ensures var first := FirstUnderService(flags, from);
            if first.Some? then
              from <= first.value && flags[first.value] && forall i: Source :: from <= i < first.value ==> !flags[i]
            else forall i: Source :: from <= i ==> !flags[i]
    decreases SOURCES - from
  {
    if from < SOURCES && !flags[from] {
      FirstIs(flags, from + 1);
    }
  }

  /** The output is up exactly for a request above everything under service. */
  lemma OutputIsAboveService(r: Record)
    requires Nested(r)
    ensures InterruptAsserted(r.state)
       <==> r.state.masterControl & MASTER_INTERRUPT_ENABLE != 0
            && exists source: Source :: Requested(r.state, source) && forall other: Source :: other in r.unretired ==> source < other
  {
    hide Requested;
    HighestIs(r.state, 0);
    var highest := HighestPending(r.state);
    if highest.Some? {
      assert forall other: Source :: other in r.unretired ==> highest.value < other;
    }
  }

  /** Retiring the highest interrupt under service retires the newest acknowledgement. */
  lemma RetiresNewest(r: Record)
    requires Nested(r)
    ensures Step(r, ResetHighestUnderService).unretired
         == if r.unretired == [] then [] else r.unretired[..|r.unretired| - 1]
  {
    FirstIs(r.state.underService, 0);
    if r.unretired != [] {
      var last := r.unretired[|r.unretired| - 1];
      assert r.state.underService[last];
      var first := FirstUnderService(r.state.underService, 0).value;
      assert first in r.unretired;
      var k :| 0 <= k < |r.unretired| && r.unretired[k] == first;
      assert first == last;
      NotInFront(r.unretired, last);
    }
  }

  lemma NotInFront(stack: seq<Source>, last: Source)
    requires Increasing(stack) && stack != [] && stack[|stack| - 1] == last
    ensures Without(stack, last) == stack[..|stack| - 1]
  {
    NothingToRemove(stack[..|stack| - 1], last);
  }

  lemma {:induction false} NothingToRemove(stack: seq<Source>, source: Source)
    requires source !in stack
    ensures Without(stack, source) == stack
  {
    if stack != [] {
      assert stack == stack[..|stack| - 1] + [stack[|stack| - 1]];
      assert stack[|stack| - 1] in stack;
      NothingToRemove(stack[..|stack| - 1], source);
    }
  }

  lemma AcknowledgeNests(r: Record)
    requires Nested(r)
    ensures Nested(Step(r, ReadVector))
  {
    hide Requested;
    HighestIs(r.state, 0);
    var source := Acknowledged(r.state);
    if source.Some? {
      assert forall other: Source :: other in r.unretired ==> source.value < other;
    }
  }

  lemma ResetNests(r: Record)
    requires Nested(r)
    ensures Nested(Step(r, ResetHighestUnderService))
  {
    FirstIs(r.state.underService, 0);
    var first := FirstUnderService(r.state.underService, 0);
    if first.Some? {
      WithoutKeepsOrder(r.unretired, first.value);
    }
  }

  /** Two flags going off retire two acknowledgements. */
  lemma PairNests(s: State, t: State, stack: seq<Source>, a: Source, b: Source)
    requires Nested(Record(s, stack))
    requires forall i: Source :: t.underService[i] == (s.underService[i] && i != a && i != b)
    ensures Nested(Record(t, Without(Without(stack, a), b)))
  {
    WithoutKeepsOrder(stack, a);
    WithoutKeepsOrder(Without(stack, a), b);
    hide Without;
  }

  lemma ResetNestsToo(r: Record, command: ResetCommand)
    requires Nested(r)
    ensures Nested(Record(ApplyReset(r.state, command), AfterReset(r.unretired, command)))
  {
    hide Without;
    match command
    case NoReset =>
    case ChannelBReset => PairNests(r.state, ResetB(r.state), r.unretired, 2, 3);
    case ChannelAReset => PairNests(r.state, ResetA(r.state), r.unretired, 0, 1);
    case ChipReset =>
  }

  lemma MasterNests(r: Record, value: bv8)
    requires Nested(r)
    ensures Nested(Step(r, WriteMaster(value)))
  {
    hide MasterReset, ApplyReset, AfterReset;
    ResetNestsToo(r, MasterReset(value));
  }

  lemma StepNests(r: Record, operation: Operation)
    requires Nested(r)
    ensures Nested(Step(r, operation))
  {
    hide Nested, Step;
    match operation
    case ReadVector => AcknowledgeNests(r);
    case ResetHighestUnderService => ResetNests(r);
    case WriteMaster(value) => MasterNests(r, value);
    case ChannelChanges(toA, channel) => ChannelNests(r, toA, channel);
  }

  lemma ChannelNests(r: Record, toA: bool, channel: Channel)
    requires Nested(r)
    ensures Nested(Step(r, ChannelChanges(toA, channel)))
  {
  }

  const Start: Record := Record(State(ResetChannel, ResetChannel, 0, [false, false, false, false]), [])

  function Run(operations: seq<Operation>): (r: Record)
    ensures Nested(r)
  {
    if operations == [] then Start
    else
      var before := Run(operations[..|operations| - 1]);
      StepNests(before, operations[|operations| - 1]);
      Step(before, operations[|operations| - 1])
  }

  /** On every run, the unretired acknowledgements nest and the next one retired is the newest. */
  lemma AcknowledgementsNest(operations: seq<Operation>)
    ensures var r := Run(operations);
            && Increasing(r.unretired)
            && (forall source: Source :: r.state.underService[source] <==> source in r.unretired)
            && (r.unretired != [] ==>
                  Step(r, ResetHighestUnderService).unretired == r.unretired[..|r.unretired| - 1])
  {
    RetiresNewest(Run(operations));
    hide Run, Step;
  }

  // The controller

  class Z85230 {
    var channelA: Channel
    var channelB: Channel
    var masterControl: bv8
    const underService: array<bool>

    predicate Valid() {
      underService.Length == SOURCES
    }

    function Value(): State
      requires Valid()
      reads this, underService
    {
      State(channelA, channelB, masterControl, underService[..])
    }

    constructor ()
      ensures Valid() && fresh(underService) && Value() == Start.state
    {
      channelA, channelB, masterControl := ResetChannel, ResetChannel, 0;
      underService := new bool[4](_ => false);
    }

    method HighestPendingInterrupt() returns (highest: Option<Source>)
      requires Valid()
      ensures highest == HighestPending(Value())
    {
      hide Requested;
      for source := 0 to SOURCES
        invariant HighestPending(Value()) == HighestFrom(Value(), source)
      {
        if underService[source] {
          return None;
        }
        if Requested(Value(), source) {
          return Some(source);
        }
      }
      return None;
    }

    /** The read of the vector that acknowledges in software. */
    method AcknowledgeInterrupt()
      requires Valid()
      modifies underService
      ensures Value() == Acknowledge(old(Value()))
    {
      hide HighestPending;
      if masterControl & SOFTWARE_ACKNOWLEDGE != 0 {
        var source := HighestPendingInterrupt();
        if source.Some? {
          underService[source.value] := true;
        }
      }
    }

    method ResetHighestInterruptUnderService()
      requires Valid()
      modifies underService
      ensures Value() == ResetHighest(old(Value()))
    {
      for source := 0 to SOURCES
        invariant underService[..] == old(underService[..])
        invariant FirstUnderService(underService[..], 0) == FirstUnderService(underService[..], source)
      {
        if underService[source] {
          underService[source] := false;
          return;
        }
      }
    }

    method ResetChannelInterrupts(first: nat)
      requires Valid() && (first == 0 || first == 2)
      modifies underService
      ensures underService[..]
           == if first == 0 then [false, false] + old(underService[..])[2..] else old(underService[..])[..2] + [false, false]
    {
      for source := 0 to SOURCES
        invariant forall i :: 0 <= i < SOURCES ==>
                    underService[i] == (old(underService[i]) && !(i < source && first <= i < first + 2))
      {
        if first <= source < first + 2 {
          underService[source] := false;
        }
      }
    }

    method WriteMasterInterruptControl(value: bv8)
      requires Valid()
      modifies this, underService
      ensures Value() == WriteMasterControl(old(Value()), value)
    {
      hide MasterReset;
      match MasterReset(value) {
      case ChannelBReset =>
        channelB := ResetChannel;
        ResetChannelInterrupts(2);
      case ChannelAReset =>
        channelA := ResetChannel;
        ResetChannelInterrupts(0);
      case ChipReset =>
        channelA, channelB := ResetChannel, ResetChannel;
        ResetChannelInterrupts(0);
        ResetChannelInterrupts(2);
      case NoReset =>
      }
      masterControl := value & 0x3f;
    }
  }
}
