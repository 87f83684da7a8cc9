/**
 The PIC1 graphics DMA channel: a descriptor-chain walker in virtual time.  Time
 that a call leaves over is banked as credit, so progress does not depend on how
 the caller splits an interval; `FragmentationDoesNotMatter` proves it for every
 board, including boards whose memory the transfers change.
 */
module GraphicsDma {
  import opened Arithmetic
  import opened Options
  import opened Words

  const CLOCK_HZ := 33_000_000
  const CYCLE_ATTOSECONDS := 30_303_030_304
  const DESCRIPTOR_CYCLES := 5

  function WrappingAdd(a: Word, b: Word): Word {
    (a + b) % 0x1_0000_0000
  }

  datatype Direction = MemoryToGio | GioToMemory

  /** One bounded operation that the channel asks of the board. */
  datatype Request =
    | ReadDescriptor(address: Word)
    | TransferLine(direction: Direction, memoryAddress: Word, gioAddress: Word, length: nat)

  /** The five words of a descriptor. */
  datatype Descriptor = Descriptor(
    bufferAddress: Word,
    bufferLength: Word,
    destinationAddress: Word,
    stride: Word,
    nextDescriptor: Word)

  function DescriptorOf(bytes: seq<Byte>): Descriptor
    requires |bytes| == 20
  {
    Descriptor(WordAt(bytes, 0), WordAt(bytes, 4), WordAt(bytes, 8), WordAt(bytes, 12), WordAt(bytes, 16))
  }

  datatype Stage = Idle | WaitingForSync | DescriptorFetch | Line

  datatype Channel = Channel(
    registers: Descriptor,
    stage: Stage,
    delay: nat,
    credit: nat,
    descriptorAddress: Word,
    lineMemoryAddress: Word,
    lineGioAddress: Word,
    lineTransferBytes: nat,
    memoryLineIncrement: Word,
    gioLineIncrement: Word,
    linesRemaining: nat,
    nextDescriptorAddress: Word,
    lastDescriptor: bool,
    direction: Direction,
    error: bool)

  predicate Active(c: Channel) {
    c.stage == DescriptorFetch || c.stage == Line
  }

  /** A delay still running and time left over exclude each other. */
  predicate Settled(c: Channel) {
    Active(c) ==> c.delay == 0 || c.credit == 0
  }

  // Helpers

  function GioTransferBytes(lineWidth: nat): (bytes: nat)
    ensures bytes % 4 == 0 && lineWidth <= bytes < lineWidth + 4
  {
    (lineWidth + 3) / 4 * 4
  }

  /** At least one clock cycle, even for an empty line. */
  function LineDelay(transferBytes: nat): (delay: nat)
    ensures delay >= CYCLE_ATTOSECONDS
  {
    var words := transferBytes / 4;
    CYCLE_ATTOSECONDS * (if words == 0 then 1 else words)
  }

  /** The low twelve bits as a signed number, in 32-bit two's complement. */
  function SignExtend12(value: Word): (extended: Word)
    ensures extended % 0x1000 == value % 0x1000
    ensures extended < 0x800 || extended >= 0x1_0000_0000 - 0x800
  {
    var low := value % 0x1000;
    if low >= 0x800 then low + 0xffff_f000 else low
  }

  // Transitions

  function SetDelay(c: Channel, delay: nat): Channel {
    var consumed := if delay < c.credit then delay else c.credit;
    c.(delay := delay - consumed, credit := c.credit - consumed)
  }

  function Finish(c: Channel, error: bool): Channel {
    c.(stage := Idle, delay := 0, error := error, credit := 0)
  }

  function ArmDescriptorFetch(c: Channel): Channel {
    SetDelay(c.(stage := DescriptorFetch), CYCLE_ATTOSECONDS * DESCRIPTOR_CYCLES)
  }

  function Start(c: Channel, descriptorAddress: Word, syncEnabled: bool, syncAsserted: bool): Channel {
    if c.stage != Idle then c
    else
      var s1 := c.(error := false, credit := 0, descriptorAddress := descriptorAddress);
      if syncEnabled && !syncAsserted then s1.(stage := WaitingForSync, delay := 0) else ArmDescriptorFetch(s1)
  }

  function ReleaseSyncWait(c: Channel, syncEnabled: bool, syncAsserted: bool): Channel {
    if c.stage == WaitingForSync && (!syncEnabled || syncAsserted) then ArmDescriptorFetch(c) else c
  }

  function SaturatingAdd(a: nat, b: nat): nat {
    if a + b > U128_MAX then U128_MAX else a + b
  }

  function AdvanceTime(c: Channel, elapsed: nat): Channel {
    if !Active(c) then c
    else if elapsed >= c.delay then
      c.(credit := SaturatingAdd(c.credit, elapsed - c.delay), delay := 0)
    else c.(delay := c.delay - elapsed)
  }

  /** A descriptor is word aligned and does not cross its page. */
  predicate DescriptorReadable(address: Word) {
    address % 4 == 0 && address % 4096 <= 4096 - 20
  }

  /** The request that is due, with the channel after asking; a bad descriptor address ends the chain. */
  function NextRequest(c: Channel): (Channel, Option<Request>) {
    if c.delay != 0 then (c, None)
    else match c.stage
      case DescriptorFetch =>
        if !DescriptorReadable(c.descriptorAddress) then (Finish(c, true), None)
        else (c, Some(ReadDescriptor(c.descriptorAddress)))
      case Line =>
        (c, Some(TransferLine(c.direction, c.lineMemoryAddress, c.lineGioAddress, c.lineTransferBytes)))
      case _ => (c, None)
  }

  function LineWidth(bufferLength: Word): (width: nat)
    ensures width <= 4096
  {
    if BitSet(bufferLength, 0x4000_0000) then 4096 else bufferLength % 0x1000
  }

  /** Between lines, local memory always moves by the width and the host stride. */
  function MemoryIncrement(d: Descriptor): Word {
    WrappingAdd(LineWidth(d.bufferLength), SignExtend12(d.stride / 0x1_0000))
  }

  /** Between lines, the GIO address moves by the width, the graphics stride, both or neither. */
  function GioIncrement(d: Descriptor): Word {
    WrappingAdd(if BitSet(d.bufferLength, 0x4000) then LineWidth(d.bufferLength) else 0,
                if BitSet(d.bufferLength, 0x8000_0000) then SignExtend12(d.bufferLength / 0x1_0000) else 0)
  }

  function TransferDirection(d: Descriptor): Direction {
    if d.bufferLength / 0x1000 % 4 == 0 then MemoryToGio else GioToMemory
  }

  /** The line parameters that a descriptor sets up. */
  function LoadDescriptor(c: Channel, d: Descriptor): Channel {
    c.(registers := d,
       direction := TransferDirection(d),
       lineMemoryAddress := d.bufferAddress,
       lineGioAddress := d.destinationAddress,
       lineTransferBytes := GioTransferBytes(LineWidth(d.bufferLength)),
       memoryLineIncrement := MemoryIncrement(d),
       gioLineIncrement := GioIncrement(d),
       linesRemaining := d.stride % 0x1_0000 + 1,
       nextDescriptorAddress := d.nextDescriptor % 0x1000_0000,
       lastDescriptor := BitSet(d.bufferLength, 0x8000),
       stage := Line)
  }

  function CompleteDescriptor(c: Channel, descriptor: Option<Descriptor>): Channel {
    if descriptor.None? then Finish(c, true)
    else
      var mode := descriptor.value.bufferLength / 0x1000 % 4;
      if mode != 0 && mode != 2 then Finish(c.(registers := descriptor.value), true)
      else
        var loaded := LoadDescriptor(c, descriptor.value);
        SetDelay(loaded, LineDelay(loaded.lineTransferBytes))
  }

  function CompleteLine(c: Channel, success: bool): Channel {
    if !success then Finish(c, true)
    else if c.linesRemaining > 1 then
      SetDelay(c.(linesRemaining := c.linesRemaining - 1,
                  lineMemoryAddress := WrappingAdd(c.lineMemoryAddress, c.memoryLineIncrement),
                  lineGioAddress := WrappingAdd(c.lineGioAddress, c.gioLineIncrement)),
               LineDelay(c.lineTransferBytes))
    else if c.lastDescriptor then Finish(c, false)
    else ArmDescriptorFetch(c.(descriptorAddress := c.nextDescriptorAddress))
  }

  // Servicing

  /** A board answers a request from everything asked of it so far; it does not see the time. */
  datatype Board = Board(readDescriptor: seq<Request> -> Option<Descriptor>, transferLine: seq<Request> -> bool)

  /** The completion that belongs to the request the channel made. */
  function Complete(c: Channel, board: Board, trace: seq<Request>): Channel
    requires Active(c)
  {
    if c.stage == DescriptorFetch then CompleteDescriptor(c, board.readDescriptor(trace))
    else CompleteLine(c, board.transferLine(trace))
  }

  /** Completing a request ends the chain, leaves a delay, or uses up a clock cycle of credit. */
  lemma CompletionUsesCredit(c: Channel, board: Board, trace: seq<Request>)
    requires Active(c) && c.delay == 0
    ensures var after := Complete(c, board, trace);
            !Active(after) || after.delay != 0 || after.credit + CYCLE_ATTOSECONDS <= c.credit
  {
    hide LoadDescriptor;
    assert forall d: Descriptor :: LoadDescriptor(c, d).credit == c.credit && LoadDescriptor(c, d).stage == Line by {
      forall d: Descriptor
        ensures LoadDescriptor(c, d).credit == c.credit && LoadDescriptor(c, d).stage == Line
      {
        LoadKeepsCredit(c, d);
      }
    }
  }

  lemma LoadKeepsCredit(c: Channel, d: Descriptor)
    ensures LoadDescriptor(c, d).credit == c.credit && LoadDescriptor(c, d).stage == Line
  {
    hide LineWidth, SignExtend12, GioTransferBytes, WrappingAdd, BitSet;
  }

  datatype Progress = Progress(channel: Channel, trace: seq<Request>)

  /** One request served, if one is due. */
  function ServeOne(board: Board, p: Progress): (Progress, bool) {
    var (c, request) := NextRequest(p.channel);
    if request.None? then (Progress(c, p.trace), false)
    else
      var trace := p.trace + [request.value];
      (Progress(Complete(c, board, trace), trace), true)
  }

  /** How much longer requests can be due at once. */
  function Pending(c: Channel): nat {
    if Active(c) && c.delay == 0 then c.credit + 1 else 0
  }

  /** Serves requests until none is due; it ends even on a chain that loops. */
  function Service(board: Board, p: Progress): Progress
    decreases Pending(p.channel)
  {
    var (next, served) := ServeOne(board, p);
    if !served then next
    else
      ServingEnds(board, p);
      Service(board, next)
  }

  lemma ServingEnds(board: Board, p: Progress)
    requires ServeOne(board, p).1
    ensures Active(p.channel) && p.channel.delay == 0
    ensures Pending(ServeOne(board, p).0.channel) < Pending(p.channel)
  {
    CompletionUsesCredit(p.channel, board, ServeOne(board, p).0.trace);
    hide Complete, DescriptorReadable;
  }

  // Splitting time

  function Advance(p: Progress, elapsed: nat): Progress {
    p.(channel := AdvanceTime(p.channel, elapsed))
  }

  /** The bank does not overflow. */
  predicate Fits(c: Channel, elapsed: nat) {
    c.credit + elapsed <= U128_MAX
  }

  lemma AdvanceAdds(c: Channel, a: nat, b: nat)
    requires Fits(c, a + b)
    ensures AdvanceTime(AdvanceTime(c, a), b) == AdvanceTime(c, a + b)
    ensures Fits(AdvanceTime(c, a), b)
  {
  }

  /** Setting a delay and then letting time pass is banking the time first. */
  lemma DelayCommutes(c: Channel, delay: nat, elapsed: nat)
    requires Active(c) && Fits(c, elapsed)
    ensures SetDelay(c.(credit := c.credit + elapsed), delay) == AdvanceTime(SetDelay(c, delay), elapsed)
  {
  }

  lemma LoadIgnoresCredit(c: Channel, d: Descriptor, credit: nat)
    ensures LoadDescriptor(c.(credit := credit), d) == LoadDescriptor(c, d).(credit := credit)
    ensures LoadDescriptor(c, d).credit == c.credit && LoadDescriptor(c, d).stage == Line
  {
    hide LineWidth, SignExtend12, GioTransferBytes, WrappingAdd, BitSet;
  }

  lemma DescriptorCommutes(c: Channel, descriptor: Option<Descriptor>, elapsed: nat)
    requires Active(c) && c.delay == 0 && Fits(c, elapsed)
    ensures CompleteDescriptor(AdvanceTime(c, elapsed), descriptor)
         == AdvanceTime(CompleteDescriptor(c, descriptor), elapsed)
  {
    if descriptor.Some? {
      hide LoadDescriptor, SetDelay, LineDelay;
      var banked := c.(credit := c.credit + elapsed);
      LoadIgnoresCredit(c, descriptor.value, banked.credit);
      var loaded := LoadDescriptor(c, descriptor.value);
      DelayCommutes(loaded, LineDelay(loaded.lineTransferBytes), elapsed);
    }
  }

  lemma LineCommutes(c: Channel, success: bool, elapsed: nat)
    requires c.stage == Line && c.delay == 0 && Fits(c, elapsed)
    ensures CompleteLine(AdvanceTime(c, elapsed), success) == AdvanceTime(CompleteLine(c, success), elapsed)
  {
    hide SetDelay, LineDelay, WrappingAdd;
    if success && c.linesRemaining > 1 {
      DelayCommutes(c.(linesRemaining := c.linesRemaining - 1,
                       lineMemoryAddress := WrappingAdd(c.lineMemoryAddress, c.memoryLineIncrement),
                       lineGioAddress := WrappingAdd(c.lineGioAddress, c.gioLineIncrement)),
                    LineDelay(c.lineTransferBytes), elapsed);
    } else if success && !c.lastDescriptor {
      DelayCommutes(c.(descriptorAddress := c.nextDescriptorAddress, stage := DescriptorFetch),
                    CYCLE_ATTOSECONDS * DESCRIPTOR_CYCLES, elapsed);
    }
  }

  /** Serving a due request and letting time pass can be swapped. */
  lemma ServingCommutes(board: Board, p: Progress, elapsed: nat)
    requires ServeOne(board, p).1 && Fits(p.channel, elapsed)
    ensures ServeOne(board, Advance(p, elapsed)) == (Advance(ServeOne(board, p).0, elapsed), true)
    ensures Fits(ServeOne(board, p).0.channel, elapsed)
  {
    var c := p.channel;
    var trace := ServeOne(board, p).0.trace;
    CompletionUsesCredit(c, board, trace);
    CompletionNeverBanks(c, board, trace);
    if c.stage == DescriptorFetch {
      DescriptorCommutes(c, board.readDescriptor(trace), elapsed);
    } else {
      LineCommutes(c, board.transferLine(trace), elapsed);
    }
    hide CompleteDescriptor, CompleteLine, DescriptorReadable;
  }

  lemma CompletionNeverBanks(c: Channel, board: Board, trace: seq<Request>)
    requires Active(c)
    ensures Complete(c, board, trace).credit <= c.credit
  {
    hide LoadDescriptor;
    forall d: Descriptor
      ensures LoadDescriptor(c, d).credit == c.credit
    {
      LoadKeepsCredit(c, d);
    }
  }

  /** Serving before a pause makes no difference to what is served after it. */
  lemma {:induction false} ServingEarlier(board: Board, p: Progress, elapsed: nat)
    requires Fits(p.channel, elapsed)
    ensures Service(board, Advance(Service(board, p), elapsed)) == Service(board, Advance(p, elapsed))
    decreases Pending(p.channel)
  {
    var (next, served) := ServeOne(board, p);
    if served {
      hide ServeOne, Pending, AdvanceTime;
      ServingEnds(board, p);
      ServingCommutes(board, p, elapsed);
      ServingEarlier(board, next, elapsed);
    }
  }

  /** One interval or two, as long as the bank does not overflow. */
  lemma FragmentsWhileItFits(board: Board, p: Progress, a: nat, b: nat)
    requires Fits(p.channel, a + b)
    ensures Service(board, Advance(Service(board, Advance(p, a)), b)) == Service(board, Advance(p, a + b))
  {
    AdvanceAdds(p.channel, a, b);
    ServingEarlier(board, Advance(p, a), b);
  }

  function Sum(intervals: seq<nat>): nat {
    if intervals == [] then 0 else Sum(intervals[..|intervals| - 1]) + intervals[|intervals| - 1]
  }

  /** The scheduler lets intervals pass one by one and serves after each. */
  function RunIntervals(board: Board, p: Progress, intervals: seq<nat>): Progress
    requires intervals != []
  {
    var rest, last := intervals[..|intervals| - 1], intervals[|intervals| - 1];
    Service(board, Advance(if rest == [] then p else RunIntervals(board, p, rest), last))
  }

  lemma {:induction false} SplitsWhileItFits(board: Board, p: Progress, intervals: seq<nat>)
    requires intervals != [] && Fits(p.channel, Sum(intervals))
    ensures RunIntervals(board, p, intervals) == Service(board, Advance(p, Sum(intervals)))
  {
    var rest, last := intervals[..|intervals| - 1], intervals[|intervals| - 1];
    if rest != [] {
      SplitsWhileItFits(board, p, rest);
      FragmentsWhileItFits(board, p, Sum(rest), last);
    }
  }

  // Bounds and invariants

  /** Every request after the first costs a clock cycle of credit. */
  lemma {:induction false} RequestsAreBounded(board: Board, p: Progress)
    ensures (|Service(board, p).trace| - |p.trace| - 1) * CYCLE_ATTOSECONDS <= p.channel.credit
    decreases Pending(p.channel)
  {
    var (next, served) := ServeOne(board, p);
    if served {
      CompletionUsesCredit(p.channel, board, next.trace);
      hide Complete, DescriptorReadable;
      ServingEnds(board, p);
      RequestsAreBounded(board, next);
      if !(Active(next.channel) && next.channel.delay == 0) {
        NothingDue(board, next);
      }
    }
  }

  lemma NothingDue(board: Board, p: Progress)
    requires !(Active(p.channel) && p.channel.delay == 0)
    ensures Service(board, p) == p
  {
  }

  lemma DelaysSettle(c: Channel, delay: nat)
    ensures Settled(SetDelay(c, delay))
  {
  }

  /** On every reachable active state the delay is over or nothing is banked. */
  lemma StaysSettled(c: Channel, board: Board, trace: seq<Request>, elapsed: nat, address: Word, enabled: bool,
                     asserted: bool)
    requires Settled(c)
    ensures Settled(AdvanceTime(c, elapsed)) && Settled(NextRequest(c).0)
    ensures Settled(Start(c, address, enabled, asserted)) && Settled(ReleaseSyncWait(c, enabled, asserted))
    ensures Active(c) ==> Settled(Complete(c, board, trace))
  {
    hide LoadDescriptor, LineDelay, SetDelay, Settled, DescriptorReadable, WrappingAdd;
    forall d: Channel, delay: nat
      ensures Settled(SetDelay(d, delay))
    {
      DelaysSettle(d, delay);
    }
    IdleIsSettled();
    AdvanceSettles(c, elapsed);
  }

  lemma IdleIsSettled()
    ensures forall c: Channel :: !Active(c) ==> Settled(c)
  {
  }

  lemma AdvanceSettles(c: Channel, elapsed: nat)
    requires Settled(c)
    ensures Settled(AdvanceTime(c, elapsed))
  {
  }

  /** A channel with nothing due: every service leaves one, and time left over is never banked in it. */
  predicate Ready(c: Channel) {
    Settled(c) && Pending(c) == 0
  }

  lemma {:induction false} ServiceReadies(board: Board, p: Progress)
    requires Settled(p.channel)
    ensures Ready(Service(board, p).channel)
    decreases Pending(p.channel)
  {
    var (next, served) := ServeOne(board, p);
    StaysSettled(p.channel, board, next.trace, 0, 0, false, false);
    if served {
      ServingEnds(board, p);
      hide Settled, Complete, DescriptorReadable;
      ServiceReadies(board, next);
    }
  }

  lemma IdleWaits(board: Board, p: Progress, elapsed: nat)
    requires !Active(p.channel)
    ensures Service(board, Advance(p, elapsed)) == p
  {
  }

  /** One interval or two: the requests made and the state left are the same. */
  lemma FragmentationDoesNotMatter(board: Board, p: Progress, a: nat, b: nat)
    requires Ready(p.channel) && a + b <= U128_MAX
    ensures Service(board, Advance(Service(board, Advance(p, a)), b)) == Service(board, Advance(p, a + b))
  {
    if Active(p.channel) {
      FragmentsWhileItFits(board, p, a, b);
    } else {
      IdleWaits(board, p, a);
      IdleWaits(board, p, b);
      IdleWaits(board, p, a + b);
    }
  }

  /** Any way of splitting an interval that a duration can express comes to the same. */
  lemma {:induction false} AnySplitIsOneInterval(board: Board, p: Progress, intervals: seq<nat>)
    requires intervals != [] && Ready(p.channel) && Sum(intervals) <= U128_MAX
    ensures RunIntervals(board, p, intervals) == Service(board, Advance(p, Sum(intervals)))
  {
    if Active(p.channel) {
      SplitsWhileItFits(board, p, intervals);
    } else {
      var rest, last := intervals[..|intervals| - 1], intervals[|intervals| - 1];
      IdleWaits(board, p, last);
      IdleWaits(board, p, Sum(intervals));
      if rest != [] {
        AnySplitIsOneInterval(board, p, rest);
        IdleWaits(board, p, Sum(rest));
      }
    }
  }

  // Where the bank is full

  /** A descriptor that follows itself and transfers one empty line. */
  const LOOP := Descriptor(0, 0, 0, 0, 0)

  /** A board whose memory holds only that descriptor. */
  const LOOPING := Board(_ => Some(LOOP), _ => true)

  predicate Looping(c: Channel) {
    && Active(c)
    && (c.stage == DescriptorFetch ==> c.descriptorAddress == 0)
    && (c.stage == Line ==>
          c.linesRemaining == 1 && !c.lastDescriptor && c.nextDescriptorAddress == 0 && c.lineTransferBytes == 0)
  }

  /** The time that the requests of a trace have taken on this chain. */
  function LoopTime(trace: seq<Request>): nat {
    if trace == [] then 0
    else
      LoopTime(trace[..|trace| - 1])
      + if trace[|trace| - 1].ReadDescriptor? then CYCLE_ATTOSECONDS else CYCLE_ATTOSECONDS * DESCRIPTOR_CYCLES
  }

  /** The time taken and the time left, less the delay still to come. */
  function LoopBalance(p: Progress): int {
    LoopTime(p.trace) + p.channel.credit - p.channel.delay
  }

  lemma LoopDescriptor(c: Channel)
    requires c.stage == DescriptorFetch && Looping(c)
    ensures var after := CompleteDescriptor(c, Some(LOOP));
            Looping(after) && after.credit - after.delay == c.credit - CYCLE_ATTOSECONDS
  {
    var width := LineWidth(LOOP.bufferLength);
    assert width == 0;
    assert !BitSet(LOOP.bufferLength, 0x8000);
    hide SignExtend12, WrappingAdd, BitSet;
  }

  lemma ServeLoops(p: Progress)
    requires Looping(p.channel)
    ensures ServeOne(LOOPING, p).1 <==> p.channel.delay == 0
    ensures Looping(ServeOne(LOOPING, p).0.channel) && LoopBalance(ServeOne(LOOPING, p).0) == LoopBalance(p)
  {
    if p.channel.delay == 0 && p.channel.stage == DescriptorFetch {
      LoopDescriptor(p.channel);
      hide CompleteDescriptor;
    }
  }

  lemma {:induction false} ServiceLoops(p: Progress)
    requires Looping(p.channel)
    ensures Looping(Service(LOOPING, p).channel) && LoopBalance(Service(LOOPING, p)) == LoopBalance(p)
    decreases Pending(p.channel)
  {
    ServeLoops(p);
    if ServeOne(LOOPING, p).1 {
      ServingEnds(LOOPING, p);
      ServiceLoops(ServeOne(LOOPING, p).0);
    }
  }

  lemma LoopPauses(p: Progress, elapsed: nat)
    requires Looping(p.channel) && Ready(p.channel) && elapsed <= U128_MAX
    ensures Looping(Advance(p, elapsed).channel) && LoopBalance(Advance(p, elapsed)) == LoopBalance(p) + elapsed
  {
  }

  /** A full bank loses what one interval adds, but not what a second adds after the first was used up. */
  lemma FullBankShowsTheSplit(p: Progress, a: nat, b: nat)
    requires Looping(p.channel) && p.channel.delay == 0 && p.channel.credit == U128_MAX
    requires 0 < b <= U128_MAX
    ensures Service(LOOPING, Advance(Service(LOOPING, Advance(p, a)), b)) != Service(LOOPING, Advance(p, a + b))
  {
    var whole := Advance(p, a + b);
    assert LoopBalance(whole) == LoopBalance(p) && LoopBalance(Advance(p, a)) == LoopBalance(p);
    assert Looping(whole.channel) && Looping(Advance(p, a).channel);
    hide Service, LoopTime, Looping, AdvanceTime;
    ServiceLoops(whole);
    ServiceLoops(Advance(p, a));
    var first := Service(LOOPING, Advance(p, a));
    ServiceReadies(LOOPING, Advance(p, a));
    LoopPauses(first, b);
    ServiceLoops(Advance(first, b));
  }

  // What one descriptor transfers

  /** An address some increments on, wrapping at 32 bits. */
  function AddressAfter(base: Word, increment: Word, count: nat): Word
    decreases count
  {
    if count == 0 then base else AddressAfter(WrappingAdd(base, increment), increment, count - 1)
  }

  lemma {:induction false} AddressClosedForm(base: Word, increment: Word, count: nat)
    ensures AddressAfter(base, increment, count) == (base + increment * count) % 0x1_0000_0000
    decreases count
  {
    if count != 0 {
      AddressClosedForm(WrappingAdd(base, increment), increment, count - 1);
      var total := base + increment;
      ModuloFirst(total, increment * (count - 1));
      assert total + increment * (count - 1) == base + increment * count;
    }
  }

  lemma ModuloFirst(a: nat, b: nat)
    ensures (a % 0x1_0000_0000 + b) % 0x1_0000_0000 == (a + b) % 0x1_0000_0000
  {
  }

  /** The transfers of the next lines of a descriptor. */
  function LineRequests(c: Channel, count: nat): (requests: seq<Request>)
    ensures |requests| == count
  {
    seq(count, k requires 0 <= k < count =>
      TransferLine(c.direction,
                   AddressAfter(c.lineMemoryAddress, c.memoryLineIncrement, k),
                   AddressAfter(c.lineGioAddress, c.gioLineIncrement, k),
                   c.lineTransferBytes))
  }

  function ServeMany(board: Board, p: Progress, count: nat): Progress
    decreases count
  {
    if count == 0 then p else ServeMany(board, ServeOne(board, p).0, count - 1)
  }

  /** The channel after some of its lines. */
  function LinesLater(c: Channel, count: nat): Channel
    requires count < c.linesRemaining && c.credit >= count * LineDelay(c.lineTransferBytes)
  {
    c.(linesRemaining := c.linesRemaining - count,
       lineMemoryAddress := AddressAfter(c.lineMemoryAddress, c.memoryLineIncrement, count),
       lineGioAddress := AddressAfter(c.lineGioAddress, c.gioLineIncrement, count),
       credit := c.credit - count * LineDelay(c.lineTransferBytes))
  }

  /** The next lines of a descriptor transfer. */
  predicate LinesSucceed(board: Board, p: Progress, count: nat) {
    forall k: nat :: k < count ==> LineSucceeds(board, p, k)
  }

  predicate LineSucceeds(board: Board, p: Progress, k: nat) {
    board.transferLine(p.trace + LineRequests(p.channel, k + 1))
  }

  lemma OneLine(board: Board, p: Progress)
    requires p.channel.stage == Line && p.channel.delay == 0 && p.channel.linesRemaining > 1
    requires p.channel.credit >= LineDelay(p.channel.lineTransferBytes) && LinesSucceed(board, p, 1)
    ensures ServeOne(board, p) == (Progress(LinesLater(p.channel, 1), p.trace + LineRequests(p.channel, 1)), true)
  {
    hide LineDelay, WrappingAdd;
    var c := p.channel;
    assert AddressAfter(c.lineMemoryAddress, c.memoryLineIncrement, 1)
        == WrappingAdd(c.lineMemoryAddress, c.memoryLineIncrement);
    assert AddressAfter(c.lineGioAddress, c.gioLineIncrement, 1) == WrappingAdd(c.lineGioAddress, c.gioLineIncrement);
    assert LineRequests(c, 1) == [NextRequest(c).1.value];
    assert LineSucceeds(board, p, 0);
  }

  lemma LineRequestsJoin(c: Channel, count: nat)
    requires 1 < c.linesRemaining && c.credit >= LineDelay(c.lineTransferBytes)
    ensures LineRequests(c, count + 1) == LineRequests(c, 1) + LineRequests(LinesLater(c, 1), count)
  {
    hide WrappingAdd, LineDelay;
    assert AddressAfter(c.lineMemoryAddress, c.memoryLineIncrement, 1)
        == WrappingAdd(c.lineMemoryAddress, c.memoryLineIncrement);
    assert AddressAfter(c.lineGioAddress, c.gioLineIncrement, 1) == WrappingAdd(c.lineGioAddress, c.gioLineIncrement);
  }

  /** A descriptor's lines are asked for in order, one stride apart, and time pays for each. */
  lemma {:induction false} LinesInOrder(board: Board, p: Progress, count: nat)
    requires p.channel.stage == Line && p.channel.delay == 0 && count < p.channel.linesRemaining
    requires p.channel.credit >= count * LineDelay(p.channel.lineTransferBytes)
    requires LinesSucceed(board, p, count)
    ensures ServeMany(board, p, count)
         == Progress(LinesLater(p.channel, count), p.trace + LineRequests(p.channel, count))
    decreases count
  {
    hide LineDelay, WrappingAdd, ServeOne;
    var c := p.channel;
    if count == 0 {
      assert p.trace + LineRequests(c, 0) == p.trace;
    } else {
      var delay := LineDelay(c.lineTransferBytes);
      assert (count - 1) * delay == count * delay - delay;
      assert count * delay >= delay;
      assert LineSucceeds(board, p, 0);
      OneLine(board, p);
      var next := ServeOne(board, p).0;
      forall k: nat | k < count - 1
        ensures LineSucceeds(board, next, k)
      {
        assert LineSucceeds(board, p, k + 1);
        LineRequestsJoin(c, k + 1);
        assert next.trace + LineRequests(next.channel, k + 1) == p.trace + LineRequests(c, k + 2);
      }
      LinesInOrder(board, next, count - 1);
      LineRequestsJoin(c, count - 1);
    }
  }

  /** The channel once a line has failed, or the last one is done. */
  function DescriptorEnd(c: Channel, success: bool): Channel {
    if !success then Finish(c, true)
    else if c.lastDescriptor then Finish(c, false)
    else ArmDescriptorFetch(c.(descriptorAddress := c.nextDescriptorAddress))
  }

  /** A descriptor ends with its last line, or with the first that fails, and no other line is asked for. */
  lemma DescriptorInOrder(board: Board, p: Progress, count: nat)
    requires p.channel.stage == Line && p.channel.delay == 0 && count < p.channel.linesRemaining
    requires p.channel.credit >= count * LineDelay(p.channel.lineTransferBytes)
    requires LinesSucceed(board, p, count)
    requires count + 1 == p.channel.linesRemaining || !LinesSucceed(board, p, count + 1)
    ensures ServeMany(board, p, count + 1)
         == Progress(DescriptorEnd(LinesLater(p.channel, count), LinesSucceed(board, p, count + 1)),
                     p.trace + LineRequests(p.channel, count + 1))
  {
    var c := p.channel;
    LinesInOrder(board, p, count);
    ServeManyThenOne(board, p, count);
    var q := ServeMany(board, p, count);
    assert LineRequests(c, count + 1) == LineRequests(c, count) + [NextRequest(q.channel).1.value];
    assert q.trace + [NextRequest(q.channel).1.value] == p.trace + LineRequests(c, count + 1);
    hide ServeMany, LineDelay, WrappingAdd, LineRequests, LinesLater;
    assert LinesSucceed(board, p, count + 1) <==> LineSucceeds(board, p, count);
  }

  lemma {:induction false} ServeManyThenOne(board: Board, p: Progress, count: nat)
    ensures ServeMany(board, p, count + 1) == ServeOne(board, ServeMany(board, p, count)).0
    decreases count
  {
    if count != 0 {
      ServeManyThenOne(board, ServeOne(board, p).0, count - 1);
    }
  }
}
