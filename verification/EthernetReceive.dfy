/**
 Receiving a frame.  A history keeps, beside the engine, what has been asked of
 memory for the present frame; the engine never asks for anything else than the
 history allows, and the completion comes last and tells the truth.
 */
module EthernetReceive {
  import opened Options
  import opened Ethernet
  import opened Words

  /** The frame being received, with its status trailer, and what of it has been stored where. */
  datatype RxHistory =
    | NoFrame
    | Accepted(frame: seq<Byte>)
    | Filling(frame: seq<Byte>, descriptor: Address, buffer: Address, capacity: nat, last: bool, stored: seq<Byte>)

  /** How much of a frame goes into a buffer. */
  function Fitting(frame: seq<Byte>, capacity: nat): nat {
    Min(|frame|, capacity)
  }

  /** What may be asked of memory: the next bytes, at the next address, and only then the completion. */
  predicate RxAllowed(h: RxHistory, request: Request) {
    match request
    case Read(_, length, ReceiveDescriptor) => h.Accepted? && length == 12
    case Write(to, bytes, ReceiveData) =>
      && h.Filling?
      && 1 <= |bytes| <= BURST_BYTES
      && |h.stored| + |bytes| <= Fitting(h.frame, h.capacity)
      && bytes == h.frame[|h.stored|..|h.stored| + |bytes|]
      && to == (h.buffer + 2 + |h.stored|) % ADDRESS_LIMIT
    case Write(to, bytes, ReceiveCompletion) =>
      && h.Filling?
      && h.stored == h.frame[..Fitting(h.frame, h.capacity)]
      && to == h.descriptor
      && |bytes| == 4 && WordAt(bytes, 0) == h.capacity - |h.stored|
    case _ => true
  }

  /** A request has been answered. */
  function RxRecord(h: RxHistory, request: Request, answer: Answer): RxHistory {
    match request
    case Read(address, length, ReceiveDescriptor) =>
      if answer.Data? && |answer.data| == 12 && h.Accepted? && TopBit(ParseDescriptor(answer.data)) then
        var d := ParseDescriptor(answer.data);
        Filling(h.frame, address, BufferOf(d), CapacityOf(d), EndOfChain(d), [])
      else NoFrame
    case Write(_, bytes, ReceiveData) =>
      if answer.Written? && h.Filling? then h.(stored := h.stored + bytes) else NoFrame
    case Write(_, _, ReceiveCompletion) => NoFrame
    case _ => h
  }

  /** The engine is where the history says. */
  predicate RxAgrees(rx: Rx, h: RxHistory) {
    && RxSound(rx)
    && (rx.stage == RxIdle <==> h.NoFrame?)
    && (rx.stage == RxDescriptor ==> h == Accepted(rx.frame) && rx.offset == 0)
    && (rx.stage == RxData || rx.stage == RxCompletion ==> InBuffer(rx, h))
    && (rx.stage == RxCompletion ==> Full(rx))
  }

  predicate InBuffer(rx: Rx, h: RxHistory) {
    && h.Filling?
    && h.frame == rx.frame
    && h.descriptor == rx.currentDescriptor && (h.last <==> rx.endOfRing)
    && rx.offset <= |rx.frame|
    && h.stored == rx.frame[..rx.offset]
    && rx.offset + rx.byteCount == h.capacity
    && rx.buffer.address == AddressAfter(h.buffer, 2 + rx.offset)
  }

  predicate Full(rx: Rx) {
    && (rx.byteCount == 0 || rx.offset == |rx.frame|)
    && (rx.overflow <==> rx.offset < |rx.frame|)
  }

  // One step

  lemma RequestIsAllowed(rx: Rx, h: RxHistory)
    requires RxAgrees(rx, h)
    ensures RxAgrees(ReceiveRequest(rx).0, h)
    ensures ReceiveRequest(rx).1.Some? ==> RxAllowed(h, ReceiveRequest(rx).1.value)
    ensures ReceiveRequest(rx).1.Some? ==> RequestOf(ReceiveRequest(rx).0, ReceiveRequest(rx).1.value)
  {
    if h.Filling? {
      AddressIs(h.buffer, 2 + |h.stored|);
    }
    hide AddressAfter, IsActive, WordBytes, WordAt;
    if rx.stage == RxData && Min(Min(rx.byteCount, BURST_BYTES), |rx.frame| - rx.offset) == 0 {
      CompletionIsAllowed(rx.(overflow := rx.offset < |rx.frame|, stage := RxCompletion), h);
    } else if rx.stage == RxCompletion {
      CompletionIsAllowed(rx, h);
    }
  }

  lemma CompletionIsAllowed(rx: Rx, h: RxHistory)
    requires rx.stage == RxCompletion && InBuffer(rx, h) && Full(rx)
    ensures RxAllowed(h, Write(rx.currentDescriptor, WordBytes(rx.byteCount), ReceiveCompletion))
  {
    WordRoundTrip(rx.byteCount);
  }

  /** The request belongs to the stage the engine is in. */
  predicate RequestOf(rx: Rx, request: Request) {
    match rx.stage
    case RxIdle => false
    case RxDescriptor => request == Read(rx.nextDescriptor, 12, ReceiveDescriptor)
    case RxData =>
      && request.Write? && request.writing == ReceiveData
      && rx.offset + |request.bytes| <= |rx.frame|
      && request.bytes == rx.frame[rx.offset..rx.offset + |request.bytes|]
      && 1 <= |request.bytes| <= rx.byteCount
    case RxCompletion =>
      request.Write? && request.writing == ReceiveCompletion && request.to == rx.currentDescriptor
  }

  /** The engine after the answer to its request. */
  function RxAnswered(rx: Rx, request: Request, answer: Answer): Rx {
    match request
    case Read(_, length, ReceiveDescriptor) =>
      if answer.Data? && |answer.data| == 12 then LoadRxDescriptor(rx, ParseDescriptor(answer.data)) else FailRx(rx)
    case Write(_, bytes, writing) =>
      if !answer.Written? then FailRx(rx)
      else if writing == ReceiveData then StoreRxData(rx, |bytes|)
      else FinishRx(rx)
    case _ => rx
  }

  lemma AnswerAgrees(rx: Rx, h: RxHistory, request: Request, answer: Answer)
    requires RxAgrees(rx, h) && RequestOf(rx, request)
    ensures RxAgrees(RxAnswered(rx, request, answer), RxRecord(h, request, answer))
  {
    hide AddressAfter, IsActive, WordBytes, WordAt, ParseDescriptor, TopBit, CapacityOf, EndOfChain;
    if rx.stage == RxData && answer.Written? {
      StoringAgrees(rx, h, |request.bytes|);
    }
  }

  lemma StoringAgrees(rx: Rx, h: RxHistory, length: nat)
    requires rx.stage == RxData && RxAgrees(rx, h)
    requires length <= rx.byteCount && rx.offset + length <= |rx.frame|
    ensures RxAgrees(StoreRxData(rx, length), h.(stored := h.stored + rx.frame[rx.offset..rx.offset + length]))
  {
    hide AddressAfter, IsActive;
    AddressAdds(h.buffer, 2 + rx.offset, length);
    assert rx.frame[..rx.offset] + rx.frame[rx.offset..rx.offset + length] == rx.frame[..rx.offset + length];
  }

  // What a completed frame means

  /** The completion is asked for when as much as fits is stored, and overflow means that not all did. */
  lemma CompletionTells(rx: Rx, h: RxHistory)
    requires RxAgrees(rx, h) && rx.stage == RxCompletion
    ensures h.Filling? && h.stored == h.frame[..Fitting(h.frame, h.capacity)]
    ensures (rx.overflow <==> |h.frame| > h.capacity) && (rx.endOfRing <==> h.last)
  {
    hide AddressAfter, IsActive;
  }

  // Progress

  /** How many memory operations the frame still needs at most. */
  function RxWork(rx: Rx): nat {
    match rx.stage
    case RxIdle => 0
    case RxDescriptor => |rx.frame| + 2
    case RxData => if rx.offset <= |rx.frame| then |rx.frame| - rx.offset + 1 else 1
    case RxCompletion => 1
  }

  /** Every answered request brings the frame nearer to its end, and an active engine always has a request. */
  lemma RequestsFinish(rx: Rx, h: RxHistory, answer: Answer)
    requires RxAgrees(rx, h) && rx.stage != RxIdle
    ensures var (asked, request) := ReceiveRequest(rx);
            request.Some? && RxWork(RxAnswered(asked, request.value, answer)) < RxWork(rx)
  {
    RequestIsAllowed(rx, h);
    assert RxSound(rx) && (rx.stage == RxDescriptor ==> rx.offset == 0);
    hide RxAgrees, RxAllowed, AddressAfter, IsActive, WordBytes, WordAt, ParseDescriptor, TopBit, CapacityOf;
  }
}
