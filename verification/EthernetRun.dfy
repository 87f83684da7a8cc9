/**
 Runs of the Ethernet channel: any interleaving of guest writes, arriving frames,
 served requests with any answers from memory, controller reports and time.
 `RunsConform` says that on every such run each engine asks only for what its
 history allows, whatever the other one does.
 */
module EthernetRun {
  import opened Options
  import opened HpcClock
  import opened Ethernet
  import opened Words
  import R = EthernetReceive
  import T = EthernetTransmit

  datatype Event =
    | TransmitStatusWritten(value: Byte)
    | ReceiveStatusWritten(value: Byte)
    | ControlWritten(control: Control)
    | TimerWritten(count: nat, expired: bool)
    | TransmitPointerWritten(address: Address)
    | ReceivePointerWritten(address: Address)
    | FrameArrived(bytes: seq<Byte>, frameStatus: Byte, interruptRequested: bool)
    | Served(ready: bool, answer: Answer)
    | TransmitCompleted(packetStatus: Byte, interrupt: bool)
    /** Any time with any ticks, hence also the pairs that the chip's clock passes on. */
    | TimePassed(elapsed: nat, ticks: nat)

  /** Memory gives as many bytes as were asked for, or none. */
  function DataFor(length: nat, answer: Answer): Option<seq<Byte>> {
    if answer.Data? && |answer.data| == length then Some(answer.data) else None
  }

  function Complete(c: Channel, request: Request, answer: Answer): Channel {
    match request
    case Read(_, length, kind) => CompleteRead(c, kind, DataFor(length, answer))
    case Write(_, bytes, kind) => CompleteWrite(c, kind, |bytes|, answer.Written?)
    case _ => c
  }

  function Apply(c: Channel, e: Event): (Channel, Option<Request>)
    requires RxSound(c.rx)
  {
    match e
    case TransmitStatusWritten(value) => (c.(tx := WriteTxStatus(c.tx, value)), None)
    case ReceiveStatusWritten(value) => (c.(rx := WriteRxStatus(c.rx, value)), None)
    case ControlWritten(control) => (WriteControl(c, control), None)
    case TimerWritten(count, expired) => (WriteTimer(c, count, expired), None)
    case TransmitPointerWritten(address) => (c.(tx := c.tx.(nextDescriptor := address)), None)
    case ReceivePointerWritten(address) => (c.(rx := c.rx.(nextDescriptor := address)), None)
    case FrameArrived(bytes, status, interrupt) =>
      (c.(rx := AcceptFrame(c.rx, c.control.reset, bytes, status, interrupt)), None)
    case Served(ready, answer) =>
      var (asked, request) := NextRequest(c, ready);
      if request.None? then (asked, None) else (Complete(asked, request.value, answer), request)
    case TransmitCompleted(status, interrupt) => (c.(tx := CompleteTx(c.tx, status, interrupt)), None)
    case TimePassed(elapsed, ticks) => (AdvanceTime(c, elapsed, ticks), None)
  }

  // History

  /** The histories of both engines, and where the next descriptors are to be found. */
  datatype History = History(tx: T.TxHistory, rx: R.RxHistory, txNext: Address, rxNext: Address)

  const NO_HISTORY := History(T.NOTHING_SENT, R.NoFrame, 0, 0)

  predicate Agrees(c: Channel, h: History) {
    && T.TxAgrees(c.tx, h.tx) && R.RxAgrees(c.rx, h.rx)
    && c.tx.nextDescriptor == h.txNext && c.rx.nextDescriptor == h.rxNext
  }

  predicate IsReceive(request: Request) {
    request.Write? || (request.Read? && request.reading == ReceiveDescriptor)
  }

  /** A descriptor that was read, and for a receive descriptor also owned by the channel, moves its pointer on. */
  function NextAfter(next: Address, request: Request, kind: ReadKind, answer: Answer): Address {
    if request.Read? && request.reading == kind && answer.Data? && |answer.data| == 12
       && (kind == ReceiveDescriptor ==> TopBit(ParseDescriptor(answer.data)))
    then NextOf(ParseDescriptor(answer.data))
    else next
  }

  function RequestRecord(h: History, first: bool, request: Request, answer: Answer): History {
    History(T.TxRecord(h.tx, first, request, answer), R.RxRecord(h.rx, request, answer),
            NextAfter(h.txNext, request, TransmitDescriptor, answer),
            NextAfter(h.rxNext, request, ReceiveDescriptor, answer))
  }

  /** The frame counts as accepted when the channel is active, idle and not in reset, and the frame not too long. */
  predicate Accepts(c: Channel, bytes: seq<Byte>, status: Byte) {
    && (IsActive(c.rx.status) || IsActive(status))
    && c.rx.stage == RxIdle && |bytes| <= MAX_FRAME_BYTES && !c.control.reset
  }

  function Record(h: History, c: Channel, e: Event): History
    requires RxSound(c.rx)
  {
    match e
    case TransmitStatusWritten(value) => h.(tx := T.StatusRecord(h.tx, value))
    case ReceiveStatusWritten(value) => if IsActive(value) then h else h.(rx := R.NoFrame)
    case ControlWritten(control) => if !c.control.reset && control.reset then NO_HISTORY else h
    case TransmitPointerWritten(address) => h.(txNext := address)
    case ReceivePointerWritten(address) => h.(rxNext := address)
    case FrameArrived(bytes, status, _) =>
      if Accepts(c, bytes, status) then h.(rx := R.Accepted(bytes + [status])) else h
    case Served(ready, answer) =>
      var request := NextRequest(c, ready).1;
      if request.None? then h else RequestRecord(h, c.tx.first, request.value, answer)
    case TransmitCompleted(_, _) => h.(tx := T.CompletionRecord(h.tx))
    case _ => h
  }

  // What a step may do

  predicate PointerRight(h: History, request: Request) {
    request.Read? ==>
      && (request.reading == TransmitDescriptor ==> request.address == h.txNext)
      && (request.reading == ReceiveDescriptor ==> request.address == h.rxNext)
  }

  /** A frame has been published: overflow and interrupts follow from what fitted. */
  predicate Published(c: Channel, h: R.RxHistory, after: Channel) {
    && h.Filling?
    && var cut := |h.frame| > h.capacity;
       var due := c.rx.interruptRequested && c.timer.expired;
    && (after.control.overflow <==> c.control.overflow || cut)
    && (after.control.interrupt <==> c.control.interrupt || cut || due)
    && (after.receiveWaiting <==> !due && (c.receiveWaiting || c.rx.interruptRequested))
    && (IsActive(after.rx.status) <==> !cut && !h.last)
  }

  predicate RequestAllowed(h: History, request: Request) {
    R.RxAllowed(h.rx, request) && T.TxAllowed(h.tx, request) && PointerRight(h, request)
  }

  predicate StepAllowed(c: Channel, h: History, e: Event)
    requires RxSound(c.rx)
  {
    var (after, request) := Apply(c, e);
    request.Some? ==>
      && RequestAllowed(h, request.value)
      && (request.value.Write? && request.value.writing == ReceiveCompletion && e.answer == Written ==>
            Published(c, h.rx, after))
  }

  ghost predicate Conforms(c: Channel, h: History, events: seq<Event>)
    requires RxSound(c.rx)
    decreases |events|
  {
    events == [] || (
      && StepAllowed(c, h, events[0])
      && RxSound(Apply(c, events[0]).0.rx)
      && Conforms(Apply(c, events[0]).0, Record(h, c, events[0]), events[1..]))
  }

  // One served request

  /** What is known between a request and its answer. */
  predicate AskedRight(asked: Channel, h: History, request: Request) {
    && RequestAllowed(h, request)
    && asked.tx.nextDescriptor == h.txNext && asked.rx.nextDescriptor == h.rxNext
    && R.RxAgrees(asked.rx, h.rx)
    && (if IsReceive(request) then R.RequestOf(asked.rx, request) && T.TxAgrees(asked.tx, h.tx)
        else T.RequestIsRight(asked.tx, h.tx, request))
  }

  lemma ReceiveAsks(rx: Rx, h: History)
    requires R.RxAgrees(rx, h.rx) && rx.nextDescriptor == h.rxNext
    ensures var (asked, request) := ReceiveRequest(rx);
            && R.RxAgrees(asked, h.rx) && asked.nextDescriptor == h.rxNext
            && (request.Some? ==> IsReceive(request.value) && R.RequestOf(asked, request.value)
                                  && RequestAllowed(h, request.value))
    ensures ReceiveRequest(rx).0.endOfRing == rx.endOfRing
         && ReceiveRequest(rx).0.interruptRequested == rx.interruptRequested
  {
    R.RequestIsAllowed(rx, h.rx);
    hide R.RxAgrees, AddressAfter, IsActive, WordBytes, WordAt, R.RxAllowed;
    assert T.TxAllowed(h.tx, Write(0, [], ReceiveData));
  }

  lemma TransmitAsks(tx: Tx, h: History, ready: bool)
    requires T.TxAgrees(tx, h.tx) && tx.nextDescriptor == h.txNext
    ensures var (asked, request) := TransmitRequest(tx, ready);
            && asked.nextDescriptor == h.txNext && (request.None? ==> T.TxAgrees(asked, h.tx))
            && (request.Some? ==> !IsReceive(request.value) && T.RequestIsRight(asked, h.tx, request.value)
                                  && RequestAllowed(h, request.value) && asked.first == tx.first)
  {
    T.RequestIsAllowed(tx, h.tx, ready);
    hide T.TxAgrees, AddressAfter, IsActive, T.WholePacket, T.Joined, T.NextBytes, T.Asked;
    TransmitKeepsPointers(tx, ready);
  }

  lemma TransmitKeepsPointers(tx: Tx, ready: bool)
    ensures TransmitRequest(tx, ready).0.nextDescriptor == tx.nextDescriptor
    ensures TransmitRequest(tx, ready).0.first == tx.first
  {
    hide IsActive;
  }

  lemma NextIsRight(c: Channel, h: History, ready: bool)
    requires Agrees(c, h)
    ensures var (asked, request) := NextRequest(c, ready);
            if request.Some? then AskedRight(asked, h, request.value) && asked.tx.first == c.tx.first
            else Agrees(asked, h)
  {
    ReceiveAsks(c.rx, h);
    TransmitAsks(c.tx, h, ready);
    assert RxSound(c.rx);
    hide ReceiveRequest, TransmitRequest, R.RxAgrees, T.TxAgrees, RequestAllowed, R.RequestOf, T.RequestIsRight, RxSound;
  }

  lemma AnswerKeeps(asked: Channel, h: History, request: Request, answer: Answer)
    requires AskedRight(asked, h, request)
    ensures Agrees(Complete(asked, request, answer), RequestRecord(h, asked.tx.first, request, answer))
  {
    hide R.RxAgrees, T.TxAgrees, RequestAllowed, R.RequestOf, T.RequestIsRight, ParseDescriptor, TopBit, IsActive;
    hide DelayFor, TakeTxData, StoreRxData, T.Abandon, T.TakeBytes, T.TakeDescriptor, T.Fits, AddressAfter;
    if IsReceive(request) {
      R.AnswerAgrees(asked.rx, h.rx, request, answer);
      ReceiveAnswered(asked, h, request, answer);
    } else {
      T.AnswerAgrees(asked.tx, h.tx, request, answer);
      TransmitAnswered(asked, h, request, answer);
    }
  }

  lemma ReceiveAnswered(asked: Channel, h: History, request: Request, answer: Answer)
    requires AskedRight(asked, h, request) && IsReceive(request)
    ensures var after := Complete(asked, request, answer);
            && after.rx == R.RxAnswered(asked.rx, request, answer) && after.tx == asked.tx
            && after.rx.nextDescriptor == NextAfter(h.rxNext, request, ReceiveDescriptor, answer)
    ensures T.TxRecord(h.tx, asked.tx.first, request, answer) == h.tx
  {
    hide R.RxAgrees, T.TxAgrees, ParseDescriptor, TopBit, IsActive, NextOf, CapacityOf, BufferOf, EndOfChain;
    hide AddressAfter, DelayFor, T.RequestIsRight, R.RequestOf;
    assert request.Read? ==> request.length == 12;
    hide R.RxAllowed;
  }

  lemma TransmitAnswered(asked: Channel, h: History, request: Request, answer: Answer)
    requires AskedRight(asked, h, request) && !IsReceive(request)
    ensures var after := Complete(asked, request, answer);
            && after.tx == T.TxAnswered(asked.tx, request, answer) && after.rx == asked.rx
            && after.tx.nextDescriptor == NextAfter(h.txNext, request, TransmitDescriptor, answer)
    ensures R.RxRecord(h.rx, request, answer) == h.rx
  {
    hide R.RxAgrees, T.TxAgrees, ParseDescriptor, TopBit, IsActive, NextOf, CountOf, BufferOf, EndOfChain;
    hide AddressAfter, DelayFor, T.RequestIsRight, R.RequestOf, R.RxAllowed, InterruptEnabled;
    assert request.Read? && request.reading == TransmitDescriptor ==> request.length == 12;
    hide T.TxAllowed;
  }

  lemma PublishTells(c: Channel, h: History, ready: bool)
    requires Agrees(c, h)
    ensures var (asked, request) := NextRequest(c, ready);
            request.Some? && request.value.Write? && request.value.writing == ReceiveCompletion ==>
              Published(c, h.rx, Complete(asked, request.value, Written))
  {
    var (asked, request) := NextRequest(c, ready);
    NextIsRight(c, h, ready);
    if request.Some? && request.value.Write? && request.value.writing == ReceiveCompletion {
      CompletionRequest(c, h, ready);
      hide T.TxAgrees, RequestAllowed, T.RequestIsRight, NextRequest, IsActive, DelayFor;
      assert IsActive(asked.rx.status);
      hide R.RxAgrees;
      R.CompletionTells(asked.rx, h.rx);
    }
  }

  lemma CompletionRequest(c: Channel, h: History, ready: bool)
    requires Agrees(c, h)
    requires var request := NextRequest(c, ready).1;
             request.Some? && request.value.Write? && request.value.writing == ReceiveCompletion
    ensures var asked := NextRequest(c, ready).0;
            && asked.rx.stage == RxCompletion
            && asked.control == c.control && asked.timer == c.timer && asked.receiveWaiting == c.receiveWaiting
            && asked.rx.endOfRing == c.rx.endOfRing && asked.rx.interruptRequested == c.rx.interruptRequested
  {
    NextIsRight(c, h, ready);
    ReceiveAsks(c.rx, h);
    hide R.RxAgrees, T.TxAgrees, RequestAllowed, T.RequestIsRight, ReceiveRequest, TransmitRequest;
  }

  // Runs

  lemma ServingKeeps(c: Channel, h: History, ready: bool, answer: Answer)
    requires Agrees(c, h)
    ensures StepAllowed(c, h, Served(ready, answer))
    ensures Agrees(Apply(c, Served(ready, answer)).0, Record(h, c, Served(ready, answer)))
  {
    NextIsRight(c, h, ready);
    PublishTells(c, h, ready);
    var (asked, request) := NextRequest(c, ready);
    assert RxSound(c.rx);
    hide R.RxAgrees, T.TxAgrees, RequestAllowed, T.RequestIsRight, R.RequestOf, NextRequest, Complete, RequestRecord;
    hide Published, RxSound;
    if request.Some? {
      AnswerKeeps(asked, h, request.value, answer);
    }
  }

  lemma FrameKeeps(c: Channel, h: History, bytes: seq<Byte>, status: Byte, interrupt: bool)
    requires Agrees(c, h)
    ensures StepAllowed(c, h, FrameArrived(bytes, status, interrupt))
    ensures Agrees(Apply(c, FrameArrived(bytes, status, interrupt)).0,
                   Record(h, c, FrameArrived(bytes, status, interrupt)))
  {
    hide T.TxAgrees, IsActive, AddressAfter, KeepingActive;
  }

  lemma StepKeeps(c: Channel, h: History, e: Event)
    requires Agrees(c, h)
    ensures StepAllowed(c, h, e) && Agrees(Apply(c, e).0, Record(h, c, e))
  {
    hide Agrees, Apply, Record;
    match e {
      case Served(ready, answer) =>
        ServingKeeps(c, h, ready, answer);
      case FrameArrived(bytes, status, interrupt) =>
        FrameKeeps(c, h, bytes, status, interrupt);
      case TransmitStatusWritten(value) =>
        TransmitStatusKeeps(c, h, value);
      case TransmitCompleted(status, interrupt) =>
        CompletionKeeps(c, h, status, interrupt);
      case ReceiveStatusWritten(value) =>
        ReceiveStatusKeeps(c, h, value);
      case _ =>
        SmallStepKeeps(c, h, e);
    }
  }

  lemma TransmitStatusKeeps(c: Channel, h: History, value: Byte)
    requires Agrees(c, h)
    ensures var e := TransmitStatusWritten(value);
            StepAllowed(c, h, e) && Agrees(Apply(c, e).0, Record(h, c, e))
  {
    hide R.RxAgrees, T.TxAgrees;
    T.StatusAgrees(c.tx, h.tx, value);
  }

  lemma CompletionKeeps(c: Channel, h: History, status: Byte, interrupt: bool)
    requires Agrees(c, h)
    ensures var e := TransmitCompleted(status, interrupt);
            StepAllowed(c, h, e) && Agrees(Apply(c, e).0, Record(h, c, e))
  {
    hide R.RxAgrees, T.TxAgrees, BitSet, KeepingActive, IsActive;
    T.CompletionAgrees(c.tx, h.tx, status, interrupt);
  }

  lemma ReceiveStatusKeeps(c: Channel, h: History, value: Byte)
    requires Agrees(c, h)
    ensures var e := ReceiveStatusWritten(value);
            StepAllowed(c, h, e) && Agrees(Apply(c, e).0, Record(h, c, e))
  {
    hide T.TxAgrees, IsActive, AddressAfter;
  }

  lemma SmallStepKeeps(c: Channel, h: History, e: Event)
    requires Agrees(c, h)
    requires e.ControlWritten? || e.TimerWritten? || e.TransmitPointerWritten? || e.ReceivePointerWritten?
          || e.TimePassed?
    ensures StepAllowed(c, h, e) && Agrees(Apply(c, e).0, Record(h, c, e))
  {
    hide IsActive, AddressAfter, AdvanceTimer, R.Fitting;
    assert [] + T.Joined([]) == [];
  }

  /** On every run every request is one that the histories allow. */
  lemma {:induction false} RunsConform(c: Channel, h: History, events: seq<Event>)
    requires Agrees(c, h)
    ensures RxSound(c.rx) && Conforms(c, h, events)
    decreases |events|
  {
    assert RxSound(c.rx);
    hide R.RxAgrees, T.TxAgrees, Apply, StepAllowed, Record;
    if events != [] {
      StepKeeps(c, h, events[0]);
      RunsConform(Apply(c, events[0]).0, Record(h, c, events[0]), events[1..]);
    }
  }

  lemma StartAgrees(control: Control)
    ensures Agrees(NewChannel(control), NO_HISTORY)
  {
    assert T.Joined([]) == [];
  }
}
