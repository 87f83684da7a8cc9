/**
 Sending packets.  A history keeps, beside the engine, the descriptors of the
 present packet and the bytes that memory gave for each of them.  What goes to the
 controller is those bytes, in order, and nothing else exactly when no packet was
 abandoned since the staging frame was last empty.
 */
module EthernetTransmit {
  import opened Options
  import opened Ethernet
  import opened Words

  /** One descriptor of a packet and the bytes read from its buffer so far. */
  datatype Fragment = Fragment(from: Address, descriptor: Descriptor, bytes: seq<Byte>)

  datatype TxHistory = TxHistory(
    stale: seq<Byte>,
    fragments: seq<Fragment>,
    abandoned: bool,
    onWire: bool)

  const NOTHING_SENT := TxHistory([], [], false, false)

  function Joined(fragments: seq<Fragment>): seq<Byte> {
    if fragments == [] then [] else Joined(fragments[..|fragments| - 1]) + fragments[|fragments| - 1].bytes
  }

  predicate Complete(f: Fragment) {
    |f.bytes| == CountOf(f.descriptor)
  }

  /** The first descriptors of a packet: all read to the end, none the last one. */
  predicate Continues(fragments: seq<Fragment>) {
    forall i :: 0 <= i < |fragments| ==> Complete(fragments[i]) && !TopBit(fragments[i].descriptor)
  }

  predicate WholePacket(fragments: seq<Fragment>) {
    && fragments != []
    && Continues(fragments[..|fragments| - 1])
    && Complete(fragments[|fragments| - 1]) && TopBit(fragments[|fragments| - 1].descriptor)
  }

  /** What may be asked: descriptors, the next bytes of one, and a packet only when it is whole and the wire is free. */
  predicate TxAllowed(h: TxHistory, request: Request) {
    match request
    case Read(_, length, TransmitDescriptor) => !h.onWire && length == 12
    case Read(address, length, TransmitData) =>
      && !h.onWire
      && h.fragments != []
      && NextBytes(h.fragments[|h.fragments| - 1], address, length)
    case Transmit(packet) =>
      && !h.onWire
      && WholePacket(h.fragments)
      && packet == h.stale + Joined(h.fragments)
      && (packet == Joined(h.fragments) <==> !h.abandoned)
    case Underflow => !h.onWire
    case _ => true
  }

  predicate NextBytes(f: Fragment, address: Address, length: nat) {
    && 1 <= length <= BURST_BYTES
    && |f.bytes| + length <= CountOf(f.descriptor)
    && address == (BufferOf(f.descriptor) + |f.bytes|) % ADDRESS_LIMIT
  }

  /** Nothing is staged any more. */
  function Cleared(h: TxHistory): TxHistory {
    h.(stale := [], fragments := [], abandoned := false)
  }

  /** A packet that will not be continued; its bytes stay staged. */
  function Abandon(h: TxHistory): TxHistory {
    h.(abandoned := h.abandoned || Joined(h.fragments) != [])
  }

  function TakeDescriptor(h: TxHistory, first: bool, from: Address, d: Descriptor): TxHistory {
    var f := Fragment(from, d, []);
    if first then h.(stale := h.stale + Joined(h.fragments), fragments := [f])
    else h.(fragments := h.fragments + [f])
  }

  function TakeBytes(h: TxHistory, data: seq<Byte>): TxHistory
    requires h.fragments != []
  {
    var last := |h.fragments| - 1;
    h.(fragments := h.fragments[..last] + [h.fragments[last].(bytes := h.fragments[last].bytes + data)])
  }

  /** The engine is where the history says. */
  predicate TxAgrees(tx: Tx, h: TxHistory) {
    && tx.frame == h.stale + Joined(h.fragments)
    && h.onWire == tx.inflight.Some?
    && (tx.stage == TxWire <==> tx.inflight.Some? && tx.inflight.value.attached)
    && (tx.stage == TxWire ==> tx.frame == [])
    && (tx.stage == TxDescriptor && !tx.first ==> Continues(h.fragments))
    && (tx.stage == TxData ==> !tx.first && Reading(tx, h.fragments))
    && (tx.stage == TxSend ==> !tx.first && WholePacket(h.fragments))
    && (if h.abandoned then SomethingLeft(tx, h) else NothingLeft(tx, h))
  }

  predicate Reading(tx: Tx, fragments: seq<Fragment>) {
    && fragments != []
    && Continues(fragments[..|fragments| - 1])
    && ReadingFragment(tx, fragments[|fragments| - 1])
  }

  predicate ReadingFragment(tx: Tx, f: Fragment) {
    && |f.bytes| + tx.byteCount == CountOf(f.descriptor)
    && tx.endOfPacket == TopBit(f.descriptor)
    && tx.buffer.address == AddressAfter(BufferOf(f.descriptor), |f.bytes|)
  }

  /** Only the present packet is staged. */
  predicate NothingLeft(tx: Tx, h: TxHistory) {
    && h.stale == []
    && (tx.stage == TxIdle || (tx.stage == TxDescriptor && tx.first) ==> tx.frame == [])
  }

  /** Bytes of an abandoned packet are staged, in front of the present packet or waiting for it. */
  predicate SomethingLeft(tx: Tx, h: TxHistory) {
    h.stale != [] || ((tx.stage == TxIdle || (tx.stage == TxDescriptor && tx.first)) && tx.frame != [])
  }

  // Histories of steps

  predicate Fits(h: TxHistory, data: seq<Byte>) {
    |h.stale| + |Joined(h.fragments)| + |data| <= MAX_FRAME_BYTES
  }

  /** A request has been made and answered; `first` tells whether the next descriptor starts a packet. */
  function TxRecord(h: TxHistory, first: bool, request: Request, answer: Answer): TxHistory {
    match request
    case Read(address, _, TransmitDescriptor) =>
      if answer.Data? && |answer.data| == 12 then TakeDescriptor(h, first, address, ParseDescriptor(answer.data))
      else Cleared(h)
    case Read(_, length, TransmitData) =>
      if answer.Data? && |answer.data| == length && h.fragments != [] && Fits(h, answer.data) then
        TakeBytes(h, answer.data)
      else Cleared(h)
    case Transmit(_) => Cleared(h).(onWire := true)
    case Underflow => Abandon(h)
    case _ => h
  }

  /** The engine after its request, and after the answer to it. */
  function TxAnswered(tx: Tx, request: Request, answer: Answer): Tx {
    match request
    case Read(_, _, TransmitDescriptor) =>
      if answer.Data? && |answer.data| == 12 then LoadTxDescriptor(tx, ParseDescriptor(answer.data)) else FailTx(tx)
    case Read(_, length, TransmitData) =>
      if answer.Data? && |answer.data| == length then TakeTxData(tx, answer.data) else FailTx(tx)
    case _ => tx
  }

  /** The request belongs to the stage the engine was in; `tx` is the engine after making it. */
  predicate RequestOf(tx: Tx, request: Request) {
    match request
    case Read(address, _, TransmitDescriptor) =>
      tx.stage == TxDescriptor && tx.inflight.None? && address == tx.nextDescriptor
    case Read(_, length, TransmitData) => tx.stage == TxData && tx.inflight.None? && length <= tx.byteCount
    case Transmit(_) => tx.stage == TxWire
    case Underflow => tx.stage == TxIdle
    case _ => false
  }

  /** What holds after a request was made and before it is answered. */
  predicate Asked(tx: Tx, h: TxHistory, request: Request) {
    match request
    case Transmit(_) => TxAgrees(tx, Cleared(h).(onWire := true))
    case Underflow => TxAgrees(tx, Abandon(h))
    case _ => TxAgrees(tx, h)
  }

  predicate RequestIsRight(tx: Tx, h: TxHistory, request: Request) {
    TxAllowed(h, request) && RequestOf(tx, request) && Asked(tx, h, request)
  }

  // One step

  lemma ReadIsAllowed(tx: Tx, h: TxHistory, ready: bool)
    requires TxAgrees(tx, h) && tx.inflight.None?
    requires tx.stage == TxDescriptor || (tx.stage == TxData && tx.byteCount > 0)
    ensures TransmitRequest(tx, ready).0 == tx
    ensures var request := TransmitRequest(tx, ready).1; request.Some? ==> RequestIsRight(tx, h, request.value)
  {
    if h.fragments != [] {
      var f := h.fragments[|h.fragments| - 1];
      AddressIs(BufferOf(f.descriptor), |f.bytes|);
    }
    hide IsActive, AddressAfter, Continues, Joined;
  }

  lemma SubmissionIsAllowed(tx: Tx, h: TxHistory)
    requires TxAgrees(tx, h) && tx.inflight.None? && tx.stage == TxSend
    ensures RequestIsRight(Submit(tx), h, Transmit(tx.frame))
  {
    hide IsActive, AddressAfter, Continues;
    assert h.stale == [] ==> h.stale + Joined(h.fragments) == Joined(h.fragments);
    assert h.stale != [] ==> |h.stale + Joined(h.fragments)| > |Joined(h.fragments)|;
  }

  lemma UnderflowIsAllowed(tx: Tx, h: TxHistory)
    requires TxAgrees(tx, h) && tx.inflight.None? && tx.stage == TxFault
    ensures RequestIsRight(tx.(stage := TxIdle), h, Underflow)
  {
    hide IsActive, AddressAfter, Continues;
  }

  lemma FragmentEnds(tx: Tx, h: TxHistory)
    requires TxAgrees(tx, h) && tx.stage == TxData && tx.byteCount == 0
    ensures TxAgrees(AfterFragment(tx), h)
  {
    hide IsActive, AddressAfter, Joined, BitSet, CountOf;
    var last := |h.fragments| - 1;
    assert h.fragments == h.fragments[..last] + [h.fragments[last]];
  }

  lemma RequestIsAllowed(tx: Tx, h: TxHistory, ready: bool)
    requires TxAgrees(tx, h)
    ensures var (asked, request) := TransmitRequest(tx, ready);
            if request.Some? then RequestIsRight(asked, h, request.value) else TxAgrees(asked, h)
    decreases if tx.stage == TxData then 1 else 0
  {
    hide RequestIsRight, Joined, IsActive, Continues;
    if tx.inflight.None? {
      if tx.stage == TxFault {
        UnderflowIsAllowed(tx, h);
      } else if tx.stage == TxDescriptor || (tx.stage == TxData && tx.byteCount > 0) {
        ReadIsAllowed(tx, h, ready);
      } else if tx.stage == TxSend {
        SubmissionIsAllowed(tx, h);
      } else if tx.stage == TxData && IsActive(tx.status) {
        FragmentEnds(tx, h);
        RequestIsAllowed(AfterFragment(tx), h, ready);
      }
    }
  }

  /** A descriptor just loaded: none of its bytes are in yet. */
  lemma FragmentStarts(tx: Tx, d: Descriptor)
    ensures ReadingFragment(LoadTxDescriptor(tx, d), Fragment(tx.nextDescriptor, d, []))
  {
    hide BitSet, CountOf, AddressAfter;
    AddressAfterNothing(BufferOf(d));
  }

  lemma JoinedLast(fragments: seq<Fragment>, f: Fragment)
    ensures Joined(fragments + [f]) == Joined(fragments) + f.bytes
  {
    assert (fragments + [f])[..|fragments|] == fragments;
  }

  /** A history whose last fragment has just been opened. */
  lemma OpenedAgrees(tx: Tx, h: TxHistory, fragments: seq<Fragment>, f: Fragment)
    requires tx.frame == h.stale + Joined(fragments) && h.fragments == fragments + [f] && f.bytes == []
    requires tx.stage == TxData && !tx.first && tx.inflight.None? && !h.onWire
    requires Continues(fragments) && ReadingFragment(tx, f)
    requires h.abandoned <==> h.stale != []
    ensures TxAgrees(tx, h)
  {
    hide Joined, Continues, ReadingFragment;
    JoinedLast(fragments, f);
    assert h.fragments[..|fragments|] == fragments && h.fragments[|fragments|] == f;
    assert Joined(fragments) + [] == Joined(fragments);
  }

  lemma DescriptorAgrees(tx: Tx, h: TxHistory, d: Descriptor)
    requires TxAgrees(tx, h) && tx.stage == TxDescriptor && tx.inflight.None?
    ensures TxAgrees(LoadTxDescriptor(tx, d), TakeDescriptor(h, tx.first, tx.nextDescriptor, d))
  {
    FragmentStarts(tx, d);
    assert Joined([]) == [] && Continues([]);
    hide BitSet, CountOf, BufferOf, Joined, Continues, ReadingFragment, AddressAfter, NextOf, EndOfChain, TopBit;
    var f := Fragment(tx.nextDescriptor, d, []);
    var before := if tx.first then [] else h.fragments;
    assert [] + [f] == [f];
    assert tx.frame + [] == tx.frame;
    OpenedAgrees(LoadTxDescriptor(tx, d), TakeDescriptor(h, tx.first, tx.nextDescriptor, d), before, f);
  }

  lemma AddressAfterNothing(base: Address)
    ensures AddressAfter(base, 0) == base
  {
  }

  lemma BytesAgree(tx: Tx, h: TxHistory, data: seq<Byte>)
    requires TxAgrees(tx, h) && tx.stage == TxData && tx.inflight.None?
    requires |data| <= tx.byteCount && Fits(h, data)
    ensures TxAgrees(TakeTxData(tx, data), TakeBytes(h, data))
  {
    hide IsActive, BitSet, CountOf, AddressAfter;
    var last := |h.fragments| - 1;
    var f := h.fragments[last];
    var after := TakeBytes(h, data);
    assert after.fragments[..last] == h.fragments[..last];
    assert Joined(after.fragments) == Joined(h.fragments) + data;
    AddressAdds(BufferOf(f.descriptor), |f.bytes|, |data|);
  }

  lemma FailureAgrees(tx: Tx, h: TxHistory)
    requires TxAgrees(tx, h) && tx.inflight.None?
    ensures TxAgrees(FailTx(tx), Cleared(h))
  {
    hide IsActive, AddressAfter;
  }

  lemma AnswerAgrees(tx: Tx, h: TxHistory, request: Request, answer: Answer)
    requires RequestIsRight(tx, h, request)
    ensures TxAgrees(TxAnswered(tx, request, answer), TxRecord(h, tx.first, request, answer))
  {
    hide TxAgrees, TakeTxData, LoadTxDescriptor, FailTx, TakeBytes, TakeDescriptor, ParseDescriptor, Joined;
    if request.Read? && request.reading == TransmitDescriptor {
      if answer.Data? && |answer.data| == 12 {
        DescriptorAgrees(tx, h, ParseDescriptor(answer.data));
      } else {
        FailureAgrees(tx, h);
      }
    } else if request.Read? {
      if !(answer.Data? && |answer.data| == request.length) {
        FailureAgrees(tx, h);
      } else if Fits(h, answer.data) {
        BytesAgree(tx, h, answer.data);
      } else {
        FailureAgrees(tx, h);
        TooLongFails(tx, h, answer.data);
      }
    }
  }

  lemma TooLongFails(tx: Tx, h: TxHistory, data: seq<Byte>)
    requires TxAgrees(tx, h) && !Fits(h, data)
    ensures TakeTxData(tx, data) == FailTx(tx)
  {
    hide IsActive, AddressAfter, Continues, Joined;
  }

  // Events that are not requests

  function StatusRecord(h: TxHistory, value: Byte): TxHistory {
    if IsActive(value) then h else Cleared(h)
  }

  lemma StatusAgrees(tx: Tx, h: TxHistory, value: Byte)
    requires TxAgrees(tx, h)
    ensures TxAgrees(WriteTxStatus(tx, value), StatusRecord(h, value))
  {
    hide IsActive, AddressAfter, BitSet;
  }

  /** The controller's report frees the wire; without a packet on it, the present packet is given up. */
  function CompletionRecord(h: TxHistory): TxHistory {
    if h.onWire then h.(onWire := false) else Abandon(h)
  }

  lemma CompletionAgrees(tx: Tx, h: TxHistory, status: Byte, interrupt: bool)
    requires TxAgrees(tx, h)
    ensures TxAgrees(CompleteTx(tx, status, interrupt), CompletionRecord(h))
  {
    hide IsActive, AddressAfter, BitSet, KeepingActive, Continues;
  }

  // A packet that STOP detached

  /** Its completion is reported, and nothing else of a restarted channel changes. */
  lemma DetachedCompletion(tx: Tx, status: Byte, interrupt: bool)
    requires tx.inflight.Some? && !tx.inflight.value.attached
    ensures var after := CompleteTx(tx, status, interrupt);
            && after == tx.(status := after.status, inflight := None, interruptDelay := after.interruptDelay)
            && (IsActive(after.status) == IsActive(tx.status) <==> !IsActive(status) || IsActive(tx.status))
  {
    hide IsActive, BitSet;
  }

  /** Bytes that an abandoned packet left do go out with the next one: the chain ends without an end of packet. */
  lemma StaleBytesAreSent(packet: seq<Byte>, next: seq<Byte>)
    requires 0 < |packet| <= BURST_BYTES && 0 < |next| <= BURST_BYTES
    ensures var open := Descriptor(|packet|, 0x8000_0000, 0);
            var closed := Descriptor(0x8000_0000 + |next|, 0x8000_0000, 0);
            var start := WriteTxStatus(NEW_TX, ACTIVE);
            var read := TakeTxData(LoadTxDescriptor(start, open), packet);
            var restarted := WriteTxStatus(TransmitRequest(read, true).0, ACTIVE);
            var resent := TakeTxData(LoadTxDescriptor(restarted, closed), next);
            && TransmitRequest(read, true).1 == Some(Underflow)
            && TransmitRequest(resent, true).1 == Some(Transmit(packet + next))
  {
    assert IsActive(ACTIVE);
    var start := WriteTxStatus(NEW_TX, ACTIVE);
    var open := Descriptor(|packet|, 0x8000_0000, 0);
    var read := TakeTxData(LoadTxDescriptor(start, open), packet);
    assert [] + packet == packet;
    assert read.frame == packet && read.byteCount == 0 && read.stage == TxData;
    assert !read.endOfPacket && read.endOfChain;
    var closed := Descriptor(0x8000_0000 + |next|, 0x8000_0000, 0);
    assert TransmitRequest(AfterFragment(read), true).0 == AfterFragment(read).(stage := TxIdle);
    var restarted := WriteTxStatus(TransmitRequest(read, true).0, ACTIVE);
    assert restarted.stage == TxDescriptor && restarted.frame == packet;
    var resent := TakeTxData(LoadTxDescriptor(restarted, closed), next);
    assert resent.endOfPacket && resent.byteCount == 0;
  }
}
