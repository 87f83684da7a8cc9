/**
 Packets get sent.  With a memory that answers, an active transmit engine always has
 a request, and the requests read the descriptors of a packet and its buffers to the
 end and hand the controller exactly their bytes: `PacketRuns` for the engine alone,
 `ChainRuns` for a chain of packets, `SentUnderLoad` for a channel that receives as well.
 */
module EthernetSend {
  import opened Arithmetic
  import opened Options
  import opened HpcClock
  import opened Ethernet
  import opened Words
  import opened EthernetRun

  // Memory

  type Memory = Address -> Byte

  function Bytes(m: Memory, from: Address, length: nat): (bytes: seq<Byte>)
    ensures |bytes| == length
  {
    seq<Byte>(length, i requires 0 <= i < length => m((from + i) % ADDRESS_LIMIT))
  }

  lemma BytesAdd(m: Memory, from: Address, a: nat, b: nat)
    ensures Bytes(m, from, a + b) == Bytes(m, from, a) + Bytes(m, AddressAfter(from, a), b)
  {
    forall i | 0 <= i < b
      ensures Bytes(m, from, a + b)[a + i] == Bytes(m, AddressAfter(from, a), b)[i]
    {
      AddressAdds(from, a, i);
    }
    hide AddressAfter;
  }

  function DescriptorAt(m: Memory, at: Address): Descriptor {
    ParseDescriptor(Bytes(m, at, 12))
  }

  /** The descriptors from an address on make up one packet: the last of them, and no other, says so. */
  predicate PacketAt(m: Memory, at: Address, count: nat)
    decreases count
  {
    count > 0 &&
    var d := DescriptorAt(m, at);
    if count == 1 then TopBit(d) else !TopBit(d) && !EndOfChain(d) && PacketAt(m, NextOf(d), count - 1)
  }

  /** Their buffers, one after the other. */
  function Payload(m: Memory, at: Address, count: nat): seq<Byte>
    decreases count
  {
    if count == 0 then []
    else
      var d := DescriptorAt(m, at);
      Bytes(m, BufferOf(d), CountOf(d)) + Payload(m, NextOf(d), count - 1)
  }

  /** The last of them. */
  function LastAt(m: Memory, at: Address, count: nat): Descriptor
    requires count > 0
    decreases count
  {
    if count == 1 then DescriptorAt(m, at) else LastAt(m, NextOf(DescriptorAt(m, at)), count - 1)
  }

  // Serving the engine alone

  function Answered(tx: Tx, request: Request, m: Memory): Tx {
    match request
    case Read(address, length, TransmitDescriptor) =>
      if length == 12 then LoadTxDescriptor(tx, DescriptorAt(m, address)) else tx
    case Read(address, length, _) => TakeTxData(tx, Bytes(m, address, length))
    case _ => tx
  }

  /** One request of the engine, answered. */
  function Serve(tx: Tx, m: Memory): (Tx, Option<Request>) {
    var (asked, request) := TransmitRequest(tx, true);
    (if request.None? then asked else Answered(asked, request.value, m), request)
  }

  /** That many requests, and the engine after them. */
  function AfterServing(tx: Tx, m: Memory, count: nat): (Tx, seq<Option<Request>>)
    decreases count
  {
    if count == 0 then (tx, [])
    else
      var (after, request) := Serve(tx, m);
      var (end, others) := AfterServing(after, m, count - 1);
      (end, [request] + others)
  }

  lemma {:induction false} ServedAdds(tx: Tx, m: Memory, a: nat, b: nat)
    ensures var (between, first) := AfterServing(tx, m, a);
            var (end, second) := AfterServing(between, m, b);
            AfterServing(tx, m, a + b) == (end, first + second)
    decreases a
  {
    hide Serve;
    if a == 0 {
      assert [] + AfterServing(tx, m, b).1 == AfterServing(tx, m, b).1;
    } else {
      var (after, request) := Serve(tx, m);
      ServedAdds(after, m, a - 1, b);
      var (between, first) := AfterServing(after, m, a - 1);
      assert [request] + (first + AfterServing(between, m, b).1) == [request] + first + AfterServing(between, m, b).1;
    }
  }

  /** The engine works on a packet and nothing is on the wire. */
  predicate Sending(tx: Tx) {
    tx.inflight.None? && IsActive(tx.status) && (tx.stage == TxDescriptor || tx.stage == TxData || tx.stage == TxSend)
  }

  /** It always has a request. */
  lemma AlwaysAsks(tx: Tx)
    requires Sending(tx) || (tx.inflight.None? && tx.stage == TxFault)
    ensures TransmitRequest(tx, true).1.Some?
  {
    hide IsActive;
  }

  // One descriptor

  /** How many bursts a number of bytes takes. */
  function Bursts(bytes: nat): nat {
    (bytes + BURST_BYTES - 1) / BURST_BYTES
  }

  lemma OneBurst(bytes: nat)
    requires bytes > 0
    ensures Bursts(bytes) == 1 + Bursts(bytes - Min(bytes, BURST_BYTES))
  {
  }

  lemma BurstServed(tx: Tx, m: Memory)
    requires Sending(tx) && tx.stage == TxData && tx.byteCount > 0
    requires |tx.frame| + tx.byteCount <= MAX_FRAME_BYTES
    ensures var length := Min(tx.byteCount, BURST_BYTES);
            Serve(tx, m) == (TakeTxData(tx, Bytes(m, tx.buffer.address, length)),
                             Some(Read(tx.buffer.address, length, TransmitData)))
  {
    hide IsActive;
  }

  /** The state when the rest of the present buffer has been read. */
  function BufferRead(tx: Tx, m: Memory): Tx {
    tx.(frame := tx.frame + Bytes(m, tx.buffer.address, tx.byteCount), byteCount := 0,
        buffer := tx.buffer.(address := AddressAfter(tx.buffer.address, tx.byteCount)))
  }

  predicate ReadsOnly(requests: seq<Option<Request>>) {
    forall i :: 0 <= i < |requests| ==> requests[i].Some? && requests[i].value.Read?
  }

  lemma {:induction false} BufferRuns(tx: Tx, m: Memory)
    requires Sending(tx) && tx.stage == TxData && |tx.frame| + tx.byteCount <= MAX_FRAME_BYTES
    ensures var (end, requests) := AfterServing(tx, m, Bursts(tx.byteCount));
            end == BufferRead(tx, m) && |requests| == Bursts(tx.byteCount) && ReadsOnly(requests)
    decreases tx.byteCount
  {
    if tx.byteCount == 0 {
      BytesNothing(tx, m);
    } else {
      OneBurst(tx.byteCount);
      BurstServed(tx, m);
      BurstLeaves(tx, m, Min(tx.byteCount, BURST_BYTES));
      hide BufferRead, TakeTxData, Bytes, IsActive, Bursts, Serve;
      BufferRuns(TakeTxData(tx, Bytes(m, tx.buffer.address, Min(tx.byteCount, BURST_BYTES))), m);
    }
  }

  lemma BurstLeaves(tx: Tx, m: Memory, length: nat)
    requires Sending(tx) && tx.stage == TxData && |tx.frame| + tx.byteCount <= MAX_FRAME_BYTES && length <= tx.byteCount
    ensures var after := TakeTxData(tx, Bytes(m, tx.buffer.address, length));
            && Sending(after) && after.stage == TxData && after.byteCount == tx.byteCount - length
            && |after.frame| == |tx.frame| + length
            && BufferRead(after, m) == BufferRead(tx, m)
  {
    var rest := tx.byteCount - length;
    BytesAdd(m, tx.buffer.address, length, rest);
    AddressAdds(tx.buffer.address, length, rest);
    hide AddressAfter, Bytes, IsActive;
    assert tx.frame + (Bytes(m, tx.buffer.address, length) + Bytes(m, AddressAfter(tx.buffer.address, length), rest))
        == tx.frame + Bytes(m, tx.buffer.address, length) + Bytes(m, AddressAfter(tx.buffer.address, length), rest);
  }

  lemma BytesNothing(tx: Tx, m: Memory)
    ensures tx.byteCount == 0 ==> BufferRead(tx, m) == tx
  {
    assert tx.frame + [] == tx.frame;
  }

  // A packet

  /** The requests a packet takes: each descriptor, the bursts of its buffer, and the packet itself. */
  function RequestsFor(m: Memory, at: Address, count: nat): nat
    decreases count
  {
    if count == 0 then 1
    else
      var d := DescriptorAt(m, at);
      1 + Bursts(CountOf(d)) + RequestsFor(m, NextOf(d), count - 1)
  }

  /** The engine is about to read a descriptor. */
  predicate AtDescriptor(tx: Tx) {
    Sending(tx) && (tx.stage == TxDescriptor || (tx.stage == TxData && tx.byteCount == 0 && !tx.endOfPacket && !tx.endOfChain))
  }

  /** What an engine is apart from its stage and the delay of its interrupt. */
  predicate SameBut(tx: Tx, other: Tx) {
    other == tx.(stage := other.stage, interruptDelay := other.interruptDelay)
  }

  /** At the end of a buffer the engine goes on at once. */
  lemma EndOfBuffer(tx: Tx)
    ensures tx.stage == TxData && tx.byteCount == 0 && tx.inflight.None? && IsActive(tx.status) ==>
              TransmitRequest(tx, true) == TransmitRequest(AfterFragment(tx), true) && AfterFragment(tx).stage != TxData
  {
    hide IsActive;
  }

  lemma DescriptorServed(tx: Tx, m: Memory)
    requires AtDescriptor(tx)
    ensures var (after, request) := Serve(tx, m);
            && request == Some(Read(tx.nextDescriptor, 12, TransmitDescriptor))
            && SameBut(LoadTxDescriptor(tx, DescriptorAt(m, tx.nextDescriptor)), after) && after.stage == TxData
  {
    hide IsActive, DescriptorAt;
    EndOfBuffer(tx);
  }

  /** What the engine has when its packet goes on the wire. */
  predicate OnTheWire(tx: Tx, end: Tx, m: Memory, at: Address, count: nat)
    requires count > 0
  {
    var last := LastAt(m, at, count);
    && end.stage == TxWire && end.frame == [] && end.status == tx.status && end.previousFirst == tx.previousFirst
    && end.nextDescriptor == NextOf(last)
    && end.inflight == Some(Context(if tx.first then at else tx.packetFirst, NextOf(last), EndOfChain(last),
                                    InterruptEnabled(last), true))
  }

  lemma PacketServed(tx: Tx, m: Memory)
    requires Sending(tx) && tx.stage == TxData && tx.byteCount == 0 && tx.endOfPacket
    ensures var (end, request) := Serve(tx, m);
            && request == Some(Transmit(tx.frame)) && SameBut(Submit(tx), end) && end.stage == TxWire
  {
    hide IsActive;
    EndOfBuffer(tx);
  }

  /** The requests of a packet: reads, and at last the packet, which is what was staged and the buffers in order. */
  predicate Sends(requests: seq<Option<Request>>, count: nat, packet: seq<Byte>) {
    count > 0 && |requests| == count && ReadsOnly(requests[..count - 1]) && requests[count - 1] == Some(Transmit(packet))
  }

  lemma {:induction false} PacketRuns(tx: Tx, m: Memory, at: Address, count: nat)
    requires AtDescriptor(tx) && tx.nextDescriptor == at && PacketAt(m, at, count)
    requires |tx.frame| + |Payload(m, at, count)| <= MAX_FRAME_BYTES
    ensures var (end, requests) := AfterServing(tx, m, RequestsFor(m, at, count));
            && Sends(requests, RequestsFor(m, at, count), tx.frame + Payload(m, at, count))
            && OnTheWire(tx, end, m, at, count)
    decreases count
  {
    var d := DescriptorAt(m, at);
    DescriptorServed(tx, m);
    var (loaded, asked) := Serve(tx, m);
    hide Bytes, DescriptorAt, TopBit, EndOfChain, InterruptEnabled, NextOf, BufferOf, IsActive, Bursts, AddressAfter, Serve;
    BufferRuns(loaded, m);
    var read := BufferRead(loaded, m);
    var bursts := Bursts(CountOf(d));
    var end, rest := AfterBuffer(tx, read, m, at, count);
    ServedAdds(loaded, m, bursts, RequestsFor(m, at, count) - 1 - bursts);
    JoinRequests(asked, AfterServing(loaded, m, bursts).1, rest, tx.frame + Payload(m, at, count));
    hide AfterServing, BufferRead;
  }

  /** From the end of a buffer: the next descriptors, or the packet. */
  lemma {:induction false} AfterBuffer(tx: Tx, read: Tx, m: Memory, at: Address, count: nat)
      returns (end: Tx, rest: seq<Option<Request>>)
    requires AtDescriptor(tx) && tx.nextDescriptor == at && PacketAt(m, at, count)
    requires |tx.frame| + |Payload(m, at, count)| <= MAX_FRAME_BYTES
    requires Sending(read) && read.stage == TxData && read.byteCount == 0
    requires var d := DescriptorAt(m, at);
             && read.frame == tx.frame + Bytes(m, BufferOf(d), CountOf(d))
             && read.status == tx.status && read.previousFirst == tx.previousFirst && read.nextDescriptor == NextOf(d)
             && read.endOfPacket == TopBit(d) && read.endOfChain == EndOfChain(d)
             && read.interruptRequested == InterruptEnabled(d) && !read.first
             && read.packetFirst == if tx.first then at else tx.packetFirst
    ensures var d := DescriptorAt(m, at);
            var count' := RequestsFor(m, NextOf(d), count - 1);
            && (end, rest) == AfterServing(read, m, count')
            && Sends(rest, count', tx.frame + Payload(m, at, count)) && OnTheWire(tx, end, m, at, count)
    decreases count, 0
  {
    var d := DescriptorAt(m, at);
    var left := RequestsFor(m, NextOf(d), count - 1);
    var served := AfterServing(read, m, left);
    end, rest := served.0, served.1;
    hide Bytes, DescriptorAt, EndOfChain, InterruptEnabled, BufferOf, CountOf, IsActive, Bursts, AddressAfter;
    var b := Bytes(m, BufferOf(d), CountOf(d));
    if count == 1 {
      PacketServed(read, m);
      assert b + [] == b;
      OneServed(read, m);
      hide Serve;
    } else {
      assert tx.frame + b + Payload(m, NextOf(d), count - 1) == tx.frame + (b + Payload(m, NextOf(d), count - 1));
      PacketRuns(read, m, NextOf(d), count - 1);
      hide Serve, AfterServing;
    }
  }

  lemma OneServed(tx: Tx, m: Memory)
    ensures AfterServing(tx, m, 1) == (Serve(tx, m).0, [Serve(tx, m).1])
  {
    hide Serve;
    assert AfterServing(tx, m, 1) == (Serve(tx, m).0, [Serve(tx, m).1] + AfterServing(Serve(tx, m).0, m, 0).1);
    assert [Serve(tx, m).1] + [] == [Serve(tx, m).1];
  }

  lemma JoinRequests(first: Option<Request>, fetched: seq<Option<Request>>, rest: seq<Option<Request>>, packet: seq<Byte>)
    requires first.Some? && first.value.Read? && ReadsOnly(fetched) && Sends(rest, |rest|, packet)
    ensures Sends([first] + (fetched + rest), 1 + |fetched| + |rest|, packet)
  {
  }

  /** START on an idle channel sets the engine to the first descriptor of a packet. */
  lemma StartReads(tx: Tx, value: Byte)
    requires tx.stage == TxIdle && tx.inflight.None? && IsActive(value)
    ensures var after := WriteTxStatus(tx, value);
            AtDescriptor(after) && after.first && after.nextDescriptor == tx.nextDescriptor && after.frame == tx.frame
  {
    hide IsActive;
  }

  // The controller's report

  predicate Successful(status: Byte) {
    BitSet(status, SUCCESS)
  }

  /** A packet that succeeded and did not end its chain is followed by the next one, and no other is. */
  lemma ReportTells(tx: Tx, end: Tx, m: Memory, at: Address, count: nat, status: Byte, interrupt: bool)
    requires AtDescriptor(tx) && tx.first && count > 0 && OnTheWire(tx, end, m, at, count)
    ensures var after := CompleteTx(end, status, interrupt);
            var last := LastAt(m, at, count);
            var continues := Successful(status) && !EndOfChain(last);
            && after.inflight.None? && after.first && after.frame == []
            && (AtDescriptor(after) <==> continues) && (continues || after.stage == TxIdle)
            && after.nextDescriptor == NextOf(last)
            && (IsActive(after.status) <==> continues || IsActive(status))
            && after.previousFirst == (if Successful(status) then at else tx.previousFirst)
            && after.interruptDelay ==
               (if InterruptEnabled(last) || (!Successful(status) && interrupt) then Some(CYCLE_ATTOSECONDS)
                else end.interruptDelay)
  {
    assert IsActive(ACTIVE);
    hide IsActive, BitSet, LastAt, EndOfChain, NextOf, InterruptEnabled;
  }

  /** The interrupt comes when its delay has passed, one clock cycle after the report, and stays until it is cleared. */
  lemma InterruptComes(c: Channel, delay: nat, elapsed: nat, ticks: nat)
    requires c.tx.interruptDelay == Some(delay) && !c.receiveWaiting
    ensures AdvanceTime(c, elapsed, ticks).control.interrupt <==> c.control.interrupt || elapsed >= delay
    ensures AdvanceTime(c, elapsed, ticks).tx.interruptDelay == if elapsed >= delay then None else Some(delay - elapsed)
  {
  }

  // A chain of packets

  type Positive = n: nat | n > 0 witness 1

  /** Packets of so many descriptors each follow one another, and the last descriptor of the last one ends the chain. */
  predicate ChainAt(m: Memory, at: Address, packets: seq<Positive>)
    decreases |packets|
  {
    && packets != []
    && PacketAt(m, at, packets[0]) && |Payload(m, at, packets[0])| <= MAX_FRAME_BYTES
    && var last := LastAt(m, at, packets[0]);
       if |packets| == 1 then EndOfChain(last) else !EndOfChain(last) && ChainAt(m, NextOf(last), packets[1..])
  }

  function Payloads(m: Memory, at: Address, packets: seq<Positive>): seq<seq<Byte>>
    decreases |packets|
  {
    if packets == [] then []
    else [Payload(m, at, packets[0])] + Payloads(m, NextOf(LastAt(m, at, packets[0])), packets[1..])
  }

  function FirstOfLast(m: Memory, at: Address, packets: seq<Positive>): Address
    requires packets != []
    decreases |packets|
  {
    if |packets| == 1 then at else FirstOfLast(m, NextOf(LastAt(m, at, packets[0])), packets[1..])
  }

  /** The engine serves each packet and has it reported; the packets that were sent. */
  function ChainServed(tx: Tx, m: Memory, at: Address, packets: seq<Positive>, reports: seq<Byte>): (Tx, seq<seq<Byte>>)
    requires |reports| == |packets|
    decreases |packets|
  {
    if packets == [] then (tx, [])
    else
      var (end, requests) := AfterServing(tx, m, RequestsFor(m, at, packets[0]));
      var after := CompleteTx(end, reports[0], false);
      var (last, others) := ChainServed(after, m, NextOf(LastAt(m, at, packets[0])), packets[1..], reports[1..]);
      (last, Packets(requests) + others)
  }

  /** The packets among requests. */
  function Packets(requests: seq<Option<Request>>): seq<seq<Byte>> {
    if requests == [] then []
    else
      var request := requests[|requests| - 1];
      Packets(requests[..|requests| - 1])
      + (if request.Some? && request.value.Transmit? then [request.value.packet] else [])
  }

  lemma {:induction false} NoPackets(requests: seq<Option<Request>>)
    requires ReadsOnly(requests)
    ensures Packets(requests) == []
  {
    if requests != [] {
      NoPackets(requests[..|requests| - 1]);
    }
  }

  /** Every packet of a chain is sent, in order, whatever successes are reported, and the channel stops at its end. */
  lemma {:induction false} ChainRuns(tx: Tx, m: Memory, at: Address, packets: seq<Positive>, reports: seq<Byte>)
    requires AtDescriptor(tx) && tx.first && tx.frame == [] && tx.nextDescriptor == at
    requires ChainAt(m, at, packets)
    requires |reports| == |packets| && forall status :: status in reports ==> Successful(status)
    ensures var (end, sent) := ChainServed(tx, m, at, packets, reports);
            && sent == Payloads(m, at, packets)
            && end.stage == TxIdle && end.inflight.None? && end.frame == []
            && end.previousFirst == FirstOfLast(m, at, packets)
            && (IsActive(end.status) <==> IsActive(reports[|reports| - 1]))
    decreases |packets|
  {
    var count := packets[0];
    var end, next := OneOfChain(tx, m, at, packets, reports);
    hide PacketAt, Payload, LastAt, EndOfChain, NextOf, IsActive, Successful, AtDescriptor, CompleteTx, InterruptEnabled,
      AfterServing, RequestsFor;
    if |packets| > 1 {
      ChainRuns(next, m, NextOf(LastAt(m, at, count)), packets[1..], reports[1..]);
    }
  }

  /** The first packet of a chain, and the engine after its report. */
  lemma OneOfChain(tx: Tx, m: Memory, at: Address, packets: seq<Positive>, reports: seq<Byte>) returns (end: Tx, next: Tx)
    requires AtDescriptor(tx) && tx.first && tx.frame == [] && tx.nextDescriptor == at
    requires ChainAt(m, at, packets) && |reports| == |packets| && Successful(reports[0])
    ensures var requests := AfterServing(tx, m, RequestsFor(m, at, packets[0]));
            end == requests.0 && Packets(requests.1) == [Payload(m, at, packets[0])]
    ensures var last := LastAt(m, at, packets[0]);
            && next == CompleteTx(end, reports[0], false)
            && next.inflight.None? && next.first && next.frame == [] && next.nextDescriptor == NextOf(last)
            && next.previousFirst == at
            && (if |packets| > 1 then AtDescriptor(next) && ChainAt(m, NextOf(last), packets[1..])
                else next.stage == TxIdle && (IsActive(next.status) <==> IsActive(reports[0])))
  {
    var count := packets[0];
    assert tx.frame + Payload(m, at, count) == Payload(m, at, count);
    hide PacketAt, Payload, LastAt, EndOfChain, NextOf, IsActive, Successful, AtDescriptor, CompleteTx, InterruptEnabled;
    PacketRuns(tx, m, at, count);
    var requests := AfterServing(tx, m, RequestsFor(m, at, count));
    end := requests.0;
    next := CompleteTx(end, reports[0], false);
    NoPackets(requests.1[..|requests.1| - 1]);
    ReportTells(tx, end, m, at, count, reports[0], false);
    hide AfterServing, OnTheWire, RequestsFor;
  }

  // A channel that receives as well

  /** The same engine with perhaps another interrupt under way. */
  predicate SameEngine(tx: Tx, other: Tx) {
    other == tx.(interruptDelay := other.interruptDelay)
  }

  lemma ServesAlike(tx: Tx, other: Tx, m: Memory)
    requires SameEngine(tx, other)
    ensures Serve(other, m).1 == Serve(tx, m).1 && SameEngine(Serve(tx, m).0, Serve(other, m).0)
  {
    hide IsActive;
    EndOfBuffer(tx);
    EndOfBuffer(other);
    var (a, request) := TransmitRequest(tx, true);
    var b := TransmitRequest(other, true).0;
    assert SameEngine(a, b);
    if request.Some? {
      AnsweredAlike(a, b, request.value, m);
    }
    hide Answered, TransmitRequest;
  }

  lemma AnsweredAlike(tx: Tx, other: Tx, request: Request, m: Memory)
    requires SameEngine(tx, other)
    ensures SameEngine(Answered(tx, request, m), Answered(other, request, m))
  {
    hide IsActive, DescriptorAt, Bytes;
  }

  lemma {:induction false} ServedAlike(tx: Tx, other: Tx, m: Memory, count: nat)
    requires SameEngine(tx, other)
    ensures AfterServing(other, m, count).1 == AfterServing(tx, m, count).1
    decreases count
  {
    hide Serve;
    if count > 0 {
      ServesAlike(tx, other, m);
      ServedAlike(Serve(tx, m).0, Serve(other, m).0, m, count - 1);
    }
  }

  /** So many requests of the engine send the packet. */
  predicate Toward(tx: Tx, m: Memory, left: nat, packet: seq<Byte>) {
    tx.inflight.None? && Sends(AfterServing(tx, m, left).1, left, packet)
  }

  /** The next request reads, and one fewer is left; or it is the packet. */
  lemma OneNearer(tx: Tx, m: Memory, left: nat, packet: seq<Byte>)
    requires Toward(tx, m, left, packet)
    ensures var (after, request) := Serve(tx, m);
            request.Some? && if left == 1 then request == Some(Transmit(packet)) && after.inflight.Some?
                             else request.value.Read? && Toward(after, m, left - 1, packet)
  {
    var (after, request) := Serve(tx, m);
    var rest := AfterServing(after, m, left - 1).1;
    assert AfterServing(tx, m, left).1 == [request] + rest;
    SendsTail(request, rest, left, packet);
    hide IsActive, AfterServing;
    if left > 1 {
      ReadKeepsWire(tx, m);
    } else {
      PacketTakesWire(tx, m);
    }
  }

  lemma SendsTail(request: Option<Request>, rest: seq<Option<Request>>, left: nat, packet: seq<Byte>)
    requires Sends([request] + rest, left, packet)
    ensures if left == 1 then request == Some(Transmit(packet))
            else request.Some? && request.value.Read? && Sends(rest, left - 1, packet)
  {
    var all := [request] + rest;
    if left > 1 {
      assert all[..left - 1][0] == request;
      forall i | 0 <= i < left - 2
        ensures rest[i].Some? && rest[i].value.Read?
      {
        assert rest[i] == all[..left - 1][i + 1];
      }
    }
  }

  lemma ReadKeepsWire(tx: Tx, m: Memory)
    requires tx.inflight.None? && Serve(tx, m).1.Some? && Serve(tx, m).1.value.Read?
    ensures Serve(tx, m).0.inflight.None?
  {
    hide IsActive, DescriptorAt, Bytes;
    EndOfBuffer(tx);
  }

  lemma PacketTakesWire(tx: Tx, m: Memory)
    requires Serve(tx, m).1.Some? && Serve(tx, m).1.value.Transmit?
    ensures Serve(tx, m).0.inflight.Some?
  {
    hide IsActive, DescriptorAt, Bytes;
    EndOfBuffer(tx);
  }

  /** A step that leaves the transmit engine to its requests, which memory answers. */
  predicate Undisturbed(c: Channel, m: Memory, e: Event)
    requires RxSound(c.rx)
  {
    match e
    case TransmitStatusWritten(_) => false
    case TransmitPointerWritten(_) => false
    case TransmitCompleted(_, _) => false
    case ControlWritten(control) => !control.reset
    case Served(ready, answer) => ready && AnsweredBy(m, NextRequest(c, true).1, answer)
    case _ => true
  }

  /** What the engine reads is what memory holds. */
  predicate AnsweredBy(m: Memory, request: Option<Request>, answer: Answer) {
    request.Some? && request.value.Read? && request.value.reading != ReceiveDescriptor ==>
      answer == Data(Bytes(m, request.value.address, request.value.length))
  }

  ghost predicate AllUndisturbed(c: Channel, m: Memory, events: seq<Event>)
    decreases |events|
  {
    events != [] ==>
      && RxSound(c.rx) && Undisturbed(c, m, events[0])
      && AllUndisturbed(Apply(c, events[0]).0, m, events[1..])
  }

  /** A service in which the memory port is free. */
  predicate IsTurn(c: Channel, e: Event) {
    e.Served? && c.delay == 0
  }

  ghost function Turns(c: Channel, events: seq<Event>): nat
    decreases |events|
  {
    if events == [] || !RxSound(c.rx) then 0
    else (if IsTurn(c, events[0]) then 1 else 0) + Turns(Apply(c, events[0]).0, events[1..])
  }

  /** The packets that the steps hand to the controller. */
  ghost function PacketsSent(c: Channel, events: seq<Event>): seq<seq<Byte>>
    decreases |events|
  {
    if events == [] || !RxSound(c.rx) then []
    else
      var (after, request) := Apply(c, events[0]);
      (if request.Some? && request.value.Transmit? then [request.value.packet] else [])
      + PacketsSent(after, events[1..])
  }

  predicate Others(request: Option<Request>) {
    request.Some? ==> !request.value.Transmit?
  }

  lemma TurnServes(c: Channel, m: Memory, answer: Answer)
    requires RxSound(c.rx) && !c.control.reset && c.tx.inflight.None? && AnsweredBy(m, NextRequest(c, true).1, answer)
    requires Serve(c.tx, m).1.Some? && (Serve(c.tx, m).1.value.Read? || Serve(c.tx, m).1.value.Transmit?)
    ensures var (after, request) := Apply(c, Event.Served(true, answer));
            && !after.control.reset
            && ((request == Serve(c.tx, m).1 && c.delay == 0 && after.tx == Serve(c.tx, m).0)
                || (SameEngine(c.tx, after.tx) && Others(request)
                    && (if c.delay == 0 then c.preferReceive && !after.preferReceive
                        else after.preferReceive == c.preferReceive)))
  {
    var (asked, request) := NextRequest(c, true);
    ReceiverAsks(c.rx);
    TransmitterAsks(c.tx);
    hide RxSound, TransmitRequest, ReceiveRequest, Complete, Answered, Bytes;
    if request.Some? {
      if IsReceive(request.value) {
        ReceiverAnswered(asked, request.value, answer);
      } else {
        TransmitterAnswered(asked, m, request.value, answer);
      }
    }
    hide IsReceive;
  }

  lemma ReceiverAnswered(asked: Channel, request: Request, answer: Answer)
    requires IsReceive(request)
    ensures var after := Complete(asked, request, answer);
            after.tx == asked.tx && after.control.reset == asked.control.reset && after.preferReceive == asked.preferReceive
  {
    hide LoadRxDescriptor, ParseDescriptor, FinishRx, FailRx, StoreRxData, DelayFor;
  }

  lemma TransmitterAnswered(asked: Channel, m: Memory, request: Request, answer: Answer)
    requires !IsReceive(request) && AnsweredBy(m, Some(request), answer)
    requires request.Read? && request.reading == TransmitDescriptor ==> request.length == 12
    ensures var after := Complete(asked, request, answer);
            && after.tx == Answered(asked.tx, request, m)
            && after.control.reset == asked.control.reset && after.preferReceive == asked.preferReceive
  {
    hide LoadTxDescriptor, ParseDescriptor, TakeTxData, FailTx, DelayFor;
  }

  lemma ReceiverAsks(rx: Rx)
    requires RxSound(rx)
    ensures ReceiveRequest(rx).1.Some? ==> IsReceive(ReceiveRequest(rx).1.value)
  {
    hide IsActive, WordBytes;
  }

  lemma TransmitterAsks(tx: Tx)
    ensures var request := TransmitRequest(tx, true).1;
            request.Some? ==> !IsReceive(request.value) && (request.value.Read? && request.value.reading == TransmitDescriptor ==>
                                                             request.value.length == 12)
  {
    hide IsActive;
  }

  lemma OtherSteps(c: Channel, m: Memory, e: Event)
    requires RxSound(c.rx) && Undisturbed(c, m, e) && !e.Served? && !c.control.reset
    ensures var (after, request) := Apply(c, e);
            !after.control.reset && SameEngine(c.tx, after.tx) && request.None? && after.preferReceive == c.preferReceive
  {
    hide IsActive, KeepingActive, RxSound, AdvanceTimer;
  }

  /** One undisturbed step: the engine stays as it is, or makes its next request in a turn; it does so at least every other turn. */
  lemma StepServes(c: Channel, m: Memory, e: Event)
    requires RxSound(c.rx) && Undisturbed(c, m, e) && !c.control.reset && c.tx.inflight.None?
    requires Serve(c.tx, m).1.Some? && (Serve(c.tx, m).1.value.Read? || Serve(c.tx, m).1.value.Transmit?)
    ensures var (after, request) := Apply(c, e);
            && !after.control.reset
            && ((request == Serve(c.tx, m).1 && IsTurn(c, e) && after.tx == Serve(c.tx, m).0)
                || (SameEngine(c.tx, after.tx) && Others(request)
                    && (if IsTurn(c, e) then c.preferReceive && !after.preferReceive
                        else after.preferReceive == c.preferReceive)))
  {
    match e {
      case Served(ready, answer) => TurnServes(c, m, answer);
      case _ => OtherSteps(c, m, e);
    }
  }

  /** A channel with a packet on the wire sends no other. */
  lemma {:induction false} WireIsQuiet(c: Channel, h: History, m: Memory, events: seq<Event>)
    requires Agrees(c, h) && c.tx.inflight.Some? && !c.control.reset && AllUndisturbed(c, m, events)
    ensures PacketsSent(c, events) == []
    decreases |events|
  {
    assert RxSound(c.rx);
    hide R.RxAgrees, T.TxAgrees, RxSound, StepAllowed, Record;
    if events != [] {
      StepKeeps(c, h, events[0]);
      WireWaits(c, m, events[0]);
      hide Apply;
      WireIsQuiet(Apply(c, events[0]).0, Record(h, c, events[0]), m, events[1..]);
    }
  }

  lemma WireWaits(c: Channel, m: Memory, e: Event)
    requires RxSound(c.rx) && Undisturbed(c, m, e) && !c.control.reset && c.tx.inflight.Some?
    ensures var (after, request) := Apply(c, e);
            after.tx.inflight.Some? && !after.control.reset && Others(request)
  {
    ReceiverAsks(c.rx);
    assert TransmitRequest(c.tx, true) == (c.tx, None);
    if e.Served? {
      var (asked, request) := NextRequest(c, true);
      hide RxSound, ReceiveRequest, TransmitRequest, Complete;
      if request.Some? {
        ReceiverAnswered(asked, request.value, e.answer);
      }
    } else {
      OtherSteps(c, m, e);
    }
  }

  /** Whatever arrives and is stored meanwhile, two turns for each request are enough to send a packet, once and unchanged. */
  lemma {:induction false} SentUnderLoad(c: Channel, h: History, m: Memory, events: seq<Event>, left: nat, packet: seq<Byte>)
    requires Agrees(c, h) && !c.control.reset && AllUndisturbed(c, m, events) && Toward(c.tx, m, left, packet)
    ensures PacketsSent(c, events) == [packet] || PacketsSent(c, events) == []
    ensures Turns(c, events) >= 2 * left - (if c.preferReceive then 0 else 1) ==> PacketsSent(c, events) == [packet]
    decreases |events|
  {
    assert RxSound(c.rx);
    hide R.RxAgrees, T.TxAgrees, RxSound, StepAllowed, Record, Undisturbed;
    if events != [] {
      OneNearer(c.tx, m, left, packet);
      StepServes(c, m, events[0]);
      StepKeeps(c, h, events[0]);
      var after, past := Apply(c, events[0]).0, Record(h, c, events[0]);
      hide Apply, Serve, Toward, SameEngine;
      if after.tx.inflight.Some? {
        WireIsQuiet(after, past, m, events[1..]);
      } else if Toward(after.tx, m, left - 1, packet) && left > 1 && Apply(c, events[0]).1 == Serve(c.tx, m).1 && after.tx == Serve(c.tx, m).0 {
        SentUnderLoad(after, past, m, events[1..], left - 1, packet);
      } else {
        StaysToward(c.tx, after.tx, m, left, packet);
        SentUnderLoad(after, past, m, events[1..], left, packet);
      }
    }
  }

  lemma StaysToward(tx: Tx, other: Tx, m: Memory, left: nat, packet: seq<Byte>)
    requires SameEngine(tx, other) && Toward(tx, m, left, packet)
    ensures Toward(other, m, left, packet)
  {
    ServedAlike(tx, other, m, left);
    hide AfterServing;
  }

  /** So a packet set going is sent while frames are received. */
  lemma PacketUnderLoad(c: Channel, h: History, m: Memory, events: seq<Event>, at: Address, count: nat)
    requires Agrees(c, h) && !c.control.reset && AllUndisturbed(c, m, events)
    requires AtDescriptor(c.tx) && c.tx.nextDescriptor == at && PacketAt(m, at, count)
    requires |c.tx.frame| + |Payload(m, at, count)| <= MAX_FRAME_BYTES
    ensures Turns(c, events) >= 2 * RequestsFor(m, at, count) ==>
              PacketsSent(c, events) == [c.tx.frame + Payload(m, at, count)]
  {
    PacketRuns(c.tx, m, at, count);
    assert Toward(c.tx, m, RequestsFor(m, at, count), c.tx.frame + Payload(m, at, count));
    hide Agrees, AllUndisturbed, Toward, AfterServing, PacketAt;
    SentUnderLoad(c, h, m, events, RequestsFor(m, at, count), c.tx.frame + Payload(m, at, count));
  }

  // The bytes of a descriptor

  /** Counts in the low 13 bits of the first word, flags in its bits 31 and 15, addresses in 28 bits, and bit 31 ends a chain. */
  lemma DescriptorBytes(b: seq<Byte>)
    requires |b| == 12
    ensures var d := ParseDescriptor(b);
            && CountOf(d) == 0x100 * (b[2] as int % 0x20) + b[3]
            && CapacityOf(d) == (if CountOf(d) >= 2 then CountOf(d) - 2 else 0)
            && (TopBit(d) <==> b[0] >= 0x80)
            && (InterruptEnabled(d) <==> b[2] >= 0x80)
            && BufferOf(d) == 0x100_0000 * (b[4] as int % 0x10) + 0x1_0000 * b[5] as int + 0x100 * b[6] as int + b[7]
            && (EndOfChain(d) <==> b[4] >= 0x80)
            && NextOf(d) == 0x100_0000 * (b[8] as int % 0x10) + 0x1_0000 * b[9] as int + 0x100 * b[10] as int + b[11]
  {
    WordBits(b[0], b[1], b[2], b[3], WordAt(b, 0));
    WordBits(b[4], b[5], b[6], b[7], WordAt(b, 4));
    WordBits(b[8], b[9], b[10], b[11], WordAt(b, 8));
    hide WordAt;
  }

  lemma WordBits(a: Byte, b: Byte, c: Byte, d: Byte, word: Word)
    requires word == 0x100_0000 * a as int + 0x1_0000 * b as int + 0x100 * c as int + d
    ensures word % 0x2000 == 0x100 * (c as int % 0x20) + d
    ensures BitSet(word, 0x8000_0000) <==> a >= 0x80
    ensures BitSet(word, 0x8000) <==> c >= 0x80
    ensures word % ADDRESS_LIMIT == 0x100_0000 * (a as int % 0x10) + 0x1_0000 * b as int + 0x100 * c as int + d
  {
    LowBits(word, 0x800 * a as int + 8 * b as int + c / 0x20, 0x100 * (c as int % 0x20) + d);
    HighBits(word, a / 0x10, 0x100_0000 * (a as int % 0x10) + 0x1_0000 * b as int + 0x100 * c as int + d);
    MiddleBit(word, a, b, c, d);
  }

  lemma LowBits(word: Word, high: nat, low: nat)
    requires word == 0x2000 * high + low && low < 0x2000
    ensures word % 0x2000 == low
  {
  }

  lemma HighBits(word: Word, high: nat, low: nat)
    requires word == ADDRESS_LIMIT * high + low && low < ADDRESS_LIMIT
    ensures word % ADDRESS_LIMIT == low
  {
  }

  lemma MiddleBit(word: Word, a: Byte, b: Byte, c: Byte, d: Byte)
    requires word == 0x100_0000 * a as int + 0x1_0000 * b as int + 0x100 * c as int + d
    ensures BitSet(word, 0x8000) <==> c >= 0x80
  {
    assert word / 0x8000 == 0x200 * a as int + 2 * b as int + c / 0x80;
  }
}
