/**
 What a descriptor transfers, from its words to the requests: the direction, the
 number of lines, and the two addresses and the length of each of them, for one
 descriptor in `DescriptorRuns` and for a chain of them in `ChainRuns`.
 */
module GraphicsLines {
  import opened Arithmetic
  import opened Options
  import opened Words
  import opened GraphicsDma

  const WORD_LIMIT: nat := 0x1_0000_0000

  // The fields of a descriptor

  /** Twelve bits as a signed number. */
  function Signed12(bits: nat): int {
    if bits % 0x1000 < 0x800 then bits % 0x1000 else bits % 0x1000 - 0x1000
  }

  /** Bytes of a line: bits 0 to 11 of the second word, or a page if its bit 30 is set. */
  function Width(d: Descriptor): nat {
    if BitSet(d.bufferLength, 0x4000_0000) then 4096 else d.bufferLength % 0x1000
  }

  /** How far memory lines are apart: the width and the signed bits 16 to 27 of the fourth word. */
  function MemoryStep(d: Descriptor): int {
    Width(d) + Signed12(d.stride / 0x1_0000)
  }

  /** How far GIO lines are apart: the width with bit 14 of the second word, its signed bits 16 to 27 with bit 31. */
  function GioStep(d: Descriptor): int {
    (if BitSet(d.bufferLength, 0x4000) then Width(d) else 0)
    + (if BitSet(d.bufferLength, 0x8000_0000) then Signed12(d.bufferLength / 0x1_0000) else 0)
  }

  /** Bits 12 and 13 of the second word. */
  function Mode(d: Descriptor): nat {
    d.bufferLength / 0x1000 % 4
  }

  /** Lines of a descriptor: one more than the low half of the fourth word. */
  function Lines(d: Descriptor): nat {
    d.stride % 0x1_0000 + 1
  }

  /** One line: memory to GIO in mode 0, and whole words of it. */
  function LineOf(d: Descriptor, k: nat): Request {
    TransferLine(if Mode(d) == 0 then MemoryToGio else GioToMemory,
                 (d.bufferAddress + MemoryStep(d) * k) % WORD_LIMIT,
                 (d.destinationAddress + GioStep(d) * k) % WORD_LIMIT,
                 (Width(d) + 3) / 4 * 4)
  }

  /** The first lines of a descriptor, in order. */
  function LinesOf(d: Descriptor, count: nat): (lines: seq<Request>)
    ensures |lines| == count
  {
    seq(count, k requires 0 <= k < count => LineOf(d, k))
  }

  // Addresses

  /** A 32-bit step that stands for a signed one leads to the same address. */
  lemma SameSteps(base: Word, increment: Word, step: int, count: nat)
    requires increment == step || increment == step + WORD_LIMIT
    ensures AddressAfter(base, increment, count) == (base + step * count) % WORD_LIMIT
  {
    AddressClosedForm(base, increment, count);
    if increment != step {
      Expand(step, count);
      WholeRounds(base + step * count, count);
    }
  }

  lemma Expand(step: int, count: nat)
    ensures (step + WORD_LIMIT) * count == step * count + count * WORD_LIMIT
  {
  }

  lemma WholeRounds(a: int, rounds: int)
    ensures (a + rounds * WORD_LIMIT) % WORD_LIMIT == a % WORD_LIMIT
  {
  }

  /** The two's complement of a signed field. */
  lemma Extended(bits: Word)
    ensures SignExtend12(bits) == Signed12(bits) || SignExtend12(bits) == Signed12(bits) + WORD_LIMIT
  {
  }

  lemma Increments(d: Descriptor)
    ensures var m := MemoryIncrement(d); m == MemoryStep(d) || m == MemoryStep(d) + WORD_LIMIT
    ensures var g := GioIncrement(d); g == GioStep(d) || g == GioStep(d) + WORD_LIMIT
  {
    Extended(d.stride / 0x1_0000);
    Extended(d.bufferLength / 0x1_0000);
    hide SignExtend12, Signed12, BitSet;
  }

  // One descriptor

  /** Clock cycles that a line takes: one for four bytes, and one at least. */
  function LineCycles(d: Descriptor): nat {
    if Width(d) == 0 then 1 else (Width(d) + 3) / 4
  }

  function LineTime(d: Descriptor): nat {
    LineCycles(d) * CYCLE_ATTOSECONDS
  }

  /** A clock cycle is rounded up to a whole number of attoseconds. */
  lemma CycleIsRoundedUp()
    ensures (CYCLE_ATTOSECONDS - 1) * CLOCK_HZ < ATTOSECONDS_PER_SECOND <= CYCLE_ATTOSECONDS * CLOCK_HZ
  {
  }

  lemma LineTakes(d: Descriptor)
    ensures LineDelay(GioTransferBytes(LineWidth(d.bufferLength))) == LineTime(d)
  {
    var width := Width(d);
    assert (width + 3) / 4 * 4 / 4 == (width + 3) / 4;
    assert width > 0 ==> (width + 3) / 4 > 0;
  }

  /** What loading a descriptor sets, and what it leaves. */
  lemma Loaded(c: Channel, d: Descriptor)
    ensures var after := LoadDescriptor(c, d);
            && after.direction == TransferDirection(d)
            && after.lineMemoryAddress == d.bufferAddress && after.memoryLineIncrement == MemoryIncrement(d)
            && after.lineGioAddress == d.destinationAddress && after.gioLineIncrement == GioIncrement(d)
            && after.lineTransferBytes == GioTransferBytes(LineWidth(d.bufferLength))
            && after.linesRemaining == Lines(d)
            && (after.lastDescriptor <==> BitSet(d.bufferLength, 0x8000))
            && after.nextDescriptorAddress == d.nextDescriptor % 0x1000_0000
            && after.stage == Line && after.credit == c.credit && after.delay == c.delay && after.registers == d
  {
    hide MemoryIncrement, GioIncrement, TransferDirection, LineWidth, BitSet, GioTransferBytes;
  }

  lemma LoadedLine(d: Descriptor, k: nat)
    requires Mode(d) == 0 || Mode(d) == 2
    ensures LineOf(d, k) == TransferLine(TransferDirection(d), AddressAfter(d.bufferAddress, MemoryIncrement(d), k),
                                         AddressAfter(d.destinationAddress, GioIncrement(d), k),
                                         GioTransferBytes(LineWidth(d.bufferLength)))
  {
    Increments(d);
    SameSteps(d.bufferAddress, MemoryIncrement(d), MemoryStep(d), k);
    SameSteps(d.destinationAddress, GioIncrement(d), GioStep(d), k);
    hide MemoryIncrement, GioIncrement, MemoryStep, GioStep, BitSet, AddressAfter;
  }

  /** The requests of a loaded descriptor are its lines. */
  lemma LoadedLines(c: Channel, d: Descriptor, credit: nat, count: nat)
    requires Mode(d) == 0 || Mode(d) == 2
    ensures LineRequests(LoadDescriptor(c, d).(credit := credit, delay := 0), count) == LinesOf(d, count)
  {
    Loaded(c, d);
    var requests := LineRequests(LoadDescriptor(c, d).(credit := credit, delay := 0), count);
    hide LoadDescriptor, MemoryIncrement, GioIncrement, TransferDirection, GioTransferBytes, LineOf, AddressAfter, LineWidth;
    forall k: nat | k < count
      ensures requests[k] == LineOf(d, k)
    {
      LoadedLine(d, k);
    }
  }

  // Serving it

  /** A channel that has just reached a descriptor it can read. */
  predicate AtDescriptor(c: Channel) {
    c.stage == DescriptorFetch && c.delay == 0 && DescriptorReadable(c.descriptorAddress)
  }

  function Asked(p: Progress): seq<Request> {
    p.trace + [ReadDescriptor(p.channel.descriptorAddress)]
  }

  /** The board moves that line when it is asked for it after those before. */
  predicate Moves(board: Board, asked: seq<Request>, d: Descriptor, k: nat) {
    board.transferLine(asked + LinesOf(d, k + 1))
  }

  predicate MovesAll(board: Board, asked: seq<Request>, d: Descriptor, count: nat) {
    forall k: nat :: k < count ==> Moves(board, asked, d, k)
  }

  /** The descriptor is read, and time that is banked pays for its first line. */
  lemma DescriptorServed(board: Board, p: Progress, d: Descriptor)
    requires AtDescriptor(p.channel) && (Mode(d) == 0 || Mode(d) == 2) && p.channel.credit >= LineTime(d)
    requires board.readDescriptor(Asked(p)) == Some(d)
    ensures ServeOne(board, p)
         == (Progress(LoadDescriptor(p.channel, d).(delay := 0, credit := p.channel.credit - LineTime(d)), Asked(p)), true)
  {
    LineTakes(d);
    Loaded(p.channel, d);
    DelayPaid(LoadDescriptor(p.channel, d), LineTime(d));
    hide LoadDescriptor, LineDelay, LineTime, DescriptorReadable, SetDelay, GioTransferBytes, LineWidth;
  }

  lemma DelayPaid(c: Channel, delay: nat)
    requires c.credit >= delay
    ensures SetDelay(c, delay) == c.(delay := 0, credit := c.credit - delay)
  {
  }

  /** Five clock cycles for a descriptor. */
  function FetchTime(): nat {
    5 * CYCLE_ATTOSECONDS
  }

  /** Time spent comes out of the bank, and what the bank lacks is a delay. */
  predicate Spent(before: Channel, time: nat, after: Channel) {
    if before.credit >= time then after.credit == before.credit - time && after.delay == 0
    else after.credit == 0 && after.delay == time - before.credit
  }

  /** No stage, no delay and nothing banked. */
  function Stopped(c: Channel, error: bool): Channel {
    c.(stage := Idle, delay := 0, credit := 0, error := error)
  }

  /** Once it has moved so many lines, the descriptor's last one among them or not, or one more has failed. */
  predicate EndsAs(d: Descriptor, moved: bool, c: Channel) {
    if !moved then c == Stopped(c, true)
    else if BitSet(d.bufferLength, 0x8000) then c == Stopped(c, false)
    else c.stage == DescriptorFetch && c.descriptorAddress == d.nextDescriptor % 0x1000_0000
  }

  /**
   A readable descriptor asks for its lines, one after the other, as its words say, up to
   the last one or the first that fails; then the chain ends or goes on as its words say.
   */
  lemma DescriptorRuns(board: Board, p: Progress, d: Descriptor, count: nat)
    requires AtDescriptor(p.channel) && (Mode(d) == 0 || Mode(d) == 2) && board.readDescriptor(Asked(p)) == Some(d)
    requires count < Lines(d) && p.channel.credit >= (count + 1) * LineTime(d) && MovesAll(board, Asked(p), d, count)
    requires count + 1 == Lines(d) || !Moves(board, Asked(p), d, count)
    ensures var end := ServeMany(board, p, count + 2);
            && end.trace == Asked(p) + LinesOf(d, count + 1)
            && EndsAs(d, Moves(board, Asked(p), d, count), end.channel)
            && (end.channel.stage == DescriptorFetch ==>
                  Spent(p.channel, (count + 1) * LineTime(d) + FetchTime(), end.channel))
  {
    hide LineTime;
    assert (count + 1) * LineTime(d) == count * LineTime(d) + LineTime(d);
    DescriptorServed(board, p, d);
    LineTakes(d);
    Loaded(p.channel, d);
    var read := ServeOne(board, p).0;
    forall n: nat | n <= count + 1
      ensures LineRequests(read.channel, n) == LinesOf(d, n)
    {
      LoadedLines(p.channel, d, read.channel.credit, n);
    }
    hide LoadDescriptor, LineDelay, DescriptorReadable, LinesOf, LineRequests, ServeOne;
    forall k: nat | k <= count
      ensures LineSucceeds(board, read, k) == Moves(board, Asked(p), d, k)
    {
    }
    assert LinesSucceed(board, read, count + 1) == Moves(board, Asked(p), d, count);
    DescriptorInOrder(board, read, count);
  }

  // A chain

  /** Descriptors that follow one another from an address: only the last of them ends the chain. */
  predicate ChainOf(at: Word, ds: seq<Descriptor>)
    decreases |ds|
  {
    && ds != [] && DescriptorReadable(at) && (Mode(ds[0]) == 0 || Mode(ds[0]) == 2)
    && (BitSet(ds[0].bufferLength, 0x8000) <==> |ds| == 1)
    && (|ds| > 1 ==> ChainOf(ds[0].nextDescriptor % 0x1000_0000, ds[1..]))
  }

  /** Everything the chain asks for. */
  function ChainRequests(at: Word, ds: seq<Descriptor>): seq<Request>
    decreases |ds|
  {
    if ds == [] then []
    else [ReadDescriptor(at)] + LinesOf(ds[0], Lines(ds[0])) + ChainRequests(ds[0].nextDescriptor % 0x1000_0000, ds[1..])
  }

  /** The time all of it takes. */
  function ChainTime(ds: seq<Descriptor>): nat
    decreases |ds|
  {
    if ds == [] then 0 else Lines(ds[0]) * LineTime(ds[0]) + FetchTime() + ChainTime(ds[1..])
  }

  /** The board gives these descriptors and moves all their lines. */
  predicate GivesChain(board: Board, trace: seq<Request>, at: Word, ds: seq<Descriptor>)
    decreases |ds|
  {
    ds == [] ||
    var asked := trace + [ReadDescriptor(at)];
    && board.readDescriptor(asked) == Some(ds[0]) && MovesAll(board, asked, ds[0], Lines(ds[0]))
    && GivesChain(board, asked + LinesOf(ds[0], Lines(ds[0])), ds[0].nextDescriptor % 0x1000_0000, ds[1..])
  }

  /** One descriptor of a chain. */
  lemma ChainStep(board: Board, p: Progress, ds: seq<Descriptor>)
    requires p.channel.stage == DescriptorFetch && p.channel.delay == 0 && ChainOf(p.channel.descriptorAddress, ds)
    requires GivesChain(board, p.trace, p.channel.descriptorAddress, ds) && p.channel.credit >= ChainTime(ds)
    ensures var next := ServeMany(board, p, Lines(ds[0]) + 1);
            && next.trace == Asked(p) + LinesOf(ds[0], Lines(ds[0]))
            && (if |ds| == 1 then next.channel.stage == Idle && !next.channel.error
                else
                  && next.channel.stage == DescriptorFetch && next.channel.delay == 0
                  && next.channel.descriptorAddress == ds[0].nextDescriptor % 0x1000_0000
                  && next.channel.credit >= ChainTime(ds[1..]))
  {
    hide LineTime, FetchTime, DescriptorReadable, Mode, BitSet, ServeMany, LinesOf, Moves;
    DescriptorRuns(board, p, ds[0], Lines(ds[0]) - 1);
  }

  /** A chain asks for all its lines, in order, and nothing else, and then stops. */
  lemma {:induction false} ChainRuns(board: Board, p: Progress, ds: seq<Descriptor>) returns (count: nat)
    requires p.channel.stage == DescriptorFetch && p.channel.delay == 0 && ChainOf(p.channel.descriptorAddress, ds)
    requires GivesChain(board, p.trace, p.channel.descriptorAddress, ds) && p.channel.credit >= ChainTime(ds)
    ensures var end := ServeMany(board, p, count);
            && end.trace == p.trace + ChainRequests(p.channel.descriptorAddress, ds)
            && end.channel.stage == Idle && !end.channel.error
    decreases |ds|
  {
    var at, n := p.channel.descriptorAddress, Lines(ds[0]);
    ChainStep(board, p, ds);
    hide ChainTime, DescriptorReadable, Mode, BitSet, ServeMany, LinesOf, MovesAll, Lines;
    var next := ServeMany(board, p, n + 1);
    JoinRequests(p.trace, ReadDescriptor(at), LinesOf(ds[0], n), ChainRequests(ds[0].nextDescriptor % 0x1000_0000, ds[1..]));
    if |ds| == 1 {
      count := n + 1;
    } else {
      var rest := ChainRuns(board, next, ds[1..]);
      count := n + 1 + rest;
      ServeManyAdds(board, p, n + 1, rest);
    }
  }

  lemma JoinRequests(trace: seq<Request>, first: Request, lines: seq<Request>, others: seq<Request>)
    ensures trace + [first] + lines + others == trace + ([first] + lines + others)
    ensures others == [] ==> trace + [first] + lines == trace + ([first] + lines + others)
  {
  }

  lemma {:induction false} ServeManyAdds(board: Board, p: Progress, a: nat, b: nat)
    ensures ServeMany(board, p, a + b) == ServeMany(board, ServeMany(board, p, a), b)
    decreases a
  {
    if a != 0 {
      ServeManyAdds(board, ServeOne(board, p).0, a - 1, b);
    }
  }

  // When requests are due

  /** A start of a channel that is not idle does nothing. */
  lemma StartWaitsForIdle(c: Channel, at: Word, syncEnabled: bool, syncAsserted: bool)
    requires c.stage != Idle
    ensures Start(c, at, syncEnabled, syncAsserted) == c
  {
  }

  /** A started channel has no error, and asks for its descriptor five cycles later, or that long after the sync it waits for. */
  lemma StartIsDue(c: Channel, at: Word, syncEnabled: bool, syncAsserted: bool, waited: nat, elapsed: nat)
    requires c.stage == Idle && DescriptorReadable(at)
    ensures var started := Start(c, at, syncEnabled, syncAsserted);
            var going := if syncEnabled && !syncAsserted then ReleaseSyncWait(AdvanceTime(started, waited), true, true) else started;
            && !started.error && (going.delay == 0 || going.credit == 0)
            && (syncEnabled && !syncAsserted ==> started.delay == 0 && NextRequest(AdvanceTime(started, elapsed)).1.None?
                                                 && ReleaseSyncWait(started, true, false) == started)
            && NextRequest(AdvanceTime(going, elapsed)).1 ==
               (if elapsed >= FetchTime() then Some(ReadDescriptor(at)) else None)
  {
    hide DescriptorReadable;
  }

  /** A descriptor is asked for where its words are whole and in one page; anywhere else the chain ends with an error. */
  lemma DescriptorIsAskedFor(c: Channel)
    requires c.stage == DescriptorFetch && c.delay == 0
    ensures NextRequest(c) ==
            if c.descriptorAddress % 4 == 0 && c.descriptorAddress / 4096 == (c.descriptorAddress + 19) / 4096
            then (c, Some(ReadDescriptor(c.descriptorAddress))) else (Stopped(c, true), None)
  {
    var page, offset := c.descriptorAddress / 4096, c.descriptorAddress % 4096;
    assert c.descriptorAddress == 4096 * page + offset;
    assert offset % 4 == c.descriptorAddress % 4;
  }

  /** The next line is due once the time of the last one has passed, time left over before included. */
  lemma LineIsDue(c: Channel, d: Descriptor, elapsed: nat)
    requires c.stage == Line && c.delay == 0 && c.linesRemaining > 1
    requires c.lineTransferBytes == GioTransferBytes(LineWidth(d.bufferLength))
    ensures NextRequest(AdvanceTime(CompleteLine(c, true), elapsed)).1.Some? <==> c.credit + elapsed >= LineTime(d)
  {
    LineTakes(d);
    hide WrappingAdd, LineDelay, LineTime, GioTransferBytes, LineWidth;
  }

  /** A descriptor in another mode, or none, ends the chain with an error and moves nothing. */
  lemma OtherModesEnd(c: Channel, descriptor: Option<Descriptor>)
    requires c.stage == DescriptorFetch
    ensures var after := CompleteDescriptor(c, descriptor);
            if descriptor.Some? && (Mode(descriptor.value) == 0 || Mode(descriptor.value) == 2) then after.stage == Line
            else after.stage == Idle && after.error && NextRequest(after).1.None?
  {
    hide LoadDescriptor;
    if descriptor.Some? {
      Loaded(c, descriptor.value);
    }
  }

  /** The five words of a descriptor lie in memory in this order, each with its most significant byte first. */
  lemma DescriptorRoundTrip(d: Descriptor)
    ensures DescriptorOf(WordBytes(d.bufferAddress) + WordBytes(d.bufferLength) + WordBytes(d.destinationAddress)
                         + WordBytes(d.stride) + WordBytes(d.nextDescriptor)) == d
  {
    WordRoundTrip(d.bufferAddress);
    WordRoundTrip(d.bufferLength);
    WordRoundTrip(d.destinationAddress);
    WordRoundTrip(d.stride);
    WordRoundTrip(d.nextDescriptor);
    FiveWords(WordBytes(d.bufferAddress), WordBytes(d.bufferLength), WordBytes(d.destinationAddress),
              WordBytes(d.stride), WordBytes(d.nextDescriptor));
    hide WordBytes, WordAt;
  }

  lemma FiveWords(a: seq<Byte>, b: seq<Byte>, c: seq<Byte>, d: seq<Byte>, e: seq<Byte>)
    requires |a| == 4 && |b| == 4 && |c| == 4 && |d| == 4 && |e| == 4
    ensures DescriptorOf(a + b + c + d + e) == Descriptor(WordAt(a, 0), WordAt(b, 0), WordAt(c, 0), WordAt(d, 0), WordAt(e, 0))
  {
  }
}
