/**
 The Ethernet DMA channel of the HPC1: a transmit and a receive descriptor engine
 that share one memory port.  Each asks for bounded memory operations and takes
 their completions.  What the engines do over whole runs is proved in
 `EthernetReceive`, `EthernetTransmit` and `EthernetRun`.
 */
module Ethernet {
  import opened Arithmetic
  import opened Options
  import opened HpcClock
  import opened Words

  type Address = x: int | 0 <= x < 0x1000_0000
  /** The 13 bits of a byte count. */
  type Count = x: int | 0 <= x < 0x2000

  const ADDRESS_LIMIT: nat := 0x1000_0000
  const MAX_FRAME_BYTES: nat := 16_384
  const BURST_BYTES: nat := 32
  const CYCLE_ATTOSECONDS: nat := 30_303_030_304
  const ACTIVE: nat := 0x40
  const SUCCESS: nat := 0x08

  predicate IsActive(status: Byte) {
    BitSet(status, ACTIVE)
  }

  /** A new status byte that does not lose an ACTIVE bit set before. */
  function KeepingActive(earlier: Byte, status: Byte): (r: Byte)
    ensures IsActive(r) <==> IsActive(earlier) || IsActive(status)
  {
    if IsActive(earlier) && !IsActive(status) then status + ACTIVE else status
  }

  function Inactive(status: Byte): (r: Byte)
    ensures !IsActive(r)
  {
    if IsActive(status) then status - ACTIVE else status
  }

  /** A buffer pointer register: the end-of-chain bit and the address. */
  datatype BufferPointer = BufferPointer(end: bool, address: Address)

  function AddressAfter(base: Address, bytes: nat): Address {
    (base + bytes) % ADDRESS_LIMIT
  }

  lemma AddressIs(base: Address, bytes: nat)
    ensures AddressAfter(base, bytes) == (base + bytes) % ADDRESS_LIMIT
  {
  }

  lemma AddressAdds(base: Address, a: nat, b: nat)
    ensures AddressAfter(AddressAfter(base, a), b) == AddressAfter(base, a + b)
  {
    RemainderAdds(base, a, b, ADDRESS_LIMIT);
  }

  // Descriptors

  /** The three words of a descriptor. */
  datatype Descriptor = Descriptor(control: Word, buffer: Word, next: Word)

  function ParseDescriptor(data: seq<Byte>): Descriptor
    requires |data| == 12
  {
    Descriptor(WordAt(data, 0), WordAt(data, 4), WordAt(data, 8))
  }

  function CountOf(d: Descriptor): Count {
    d.control % 0x2000
  }

  /** OWN for a receive descriptor, end of packet for a transmit descriptor. */
  predicate TopBit(d: Descriptor) {
    BitSet(d.control, 0x8000_0000)
  }

  predicate InterruptEnabled(d: Descriptor) {
    BitSet(d.control, 0x8000)
  }

  function BufferOf(d: Descriptor): Address {
    d.buffer % ADDRESS_LIMIT
  }

  predicate EndOfChain(d: Descriptor) {
    BitSet(d.buffer, 0x8000_0000)
  }

  function NextOf(d: Descriptor): Address {
    d.next % ADDRESS_LIMIT
  }

  /** A receive buffer loses the two bytes of its offset. */
  function CapacityOf(d: Descriptor): Count {
    if CountOf(d) < 2 then 0 else CountOf(d) - 2
  }

  // Requests

  datatype ReadKind = TransmitDescriptor | TransmitData | ReceiveDescriptor
  datatype WriteKind = ReceiveData | ReceiveCompletion

  datatype Request =
    | Read(address: Address, length: nat, reading: ReadKind)
    | Write(to: Address, bytes: seq<Byte>, writing: WriteKind)
    | Transmit(packet: seq<Byte>)
    | Underflow

  /** What the machine answers to a memory request. */
  datatype Answer = Data(data: seq<Byte>) | Written | Failed

  // State

  datatype RxStage = RxIdle | RxDescriptor | RxData | RxCompletion

  datatype Rx = Rx(
    stage: RxStage,
    status: Byte,
    frame: seq<Byte>,
    offset: nat,
    interruptRequested: bool,
    overflow: bool,
    endOfRing: bool,
    byteCount: Count,
    buffer: BufferPointer,
    nextDescriptor: Address,
    currentDescriptor: Address)

  datatype TxStage = TxIdle | TxDescriptor | TxData | TxSend | TxWire | TxFault

  /** The descriptor signals of the packet on the wire; STOP detaches it from the channel. */
  datatype Context = Context(
    firstDescriptor: Address,
    nextDescriptor: Address,
    endOfChain: bool,
    interruptRequested: bool,
    attached: bool)

  datatype Tx = Tx(
    stage: TxStage,
    status: Byte,
    inflight: Option<Context>,
    frame: seq<Byte>,
    endOfPacket: bool,
    endOfChain: bool,
    interruptRequested: bool,
    first: bool,
    byteCount: Count,
    buffer: BufferPointer,
    nextDescriptor: Address,
    currentDescriptor: Address,
    packetFirst: Address,
    previousFirst: Address,
    interruptDelay: Option<nat>)

  datatype Control = Control(reset: bool, interrupt: bool, loopbackDisable: bool, overflow: bool)

  datatype Channel = Channel(
    tx: Tx,
    rx: Rx,
    delay: nat,
    preferReceive: bool,
    receiveWaiting: bool,
    timer: Timer,
    control: Control)

  const NO_BUFFER := BufferPointer(false, 0)
  const NEW_RX := Rx(RxIdle, 0, [], 0, false, false, false, 0, NO_BUFFER, 0, 0)
  const NEW_TX := Tx(TxIdle, 0, None, [], false, false, false, true, 0, NO_BUFFER, 0, 0, 0, 0, None)

  function NewChannel(control: Control): Channel {
    Channel(NEW_TX, NEW_RX, 0, false, false, Timer(0, false), control)
  }

  /** A frame being stored belongs to an active channel, and no more of it is stored than there is. */
  predicate RxSound(rx: Rx) {
    && (rx.stage != RxIdle ==> IsActive(rx.status))
    && (rx.stage == RxData ==> rx.offset <= |rx.frame|)
    && (rx.stage == RxCompletion ==> rx.offset <= |rx.frame|)
  }

  // The receive engine

  /** Takes a frame if the channel can; the status trailer follows the frame. */
  function AcceptFrame(rx: Rx, reset: bool, bytes: seq<Byte>, status: Byte, interruptRequested: bool): Rx {
    var captured := rx.(status := KeepingActive(rx.status, status));
    if !IsActive(captured.status) || rx.stage != RxIdle || |bytes| > MAX_FRAME_BYTES || reset then captured
    else
      captured.(frame := bytes + [status], offset := 0, interruptRequested := interruptRequested,
                overflow := false, stage := RxDescriptor)
  }

  function WriteRxStatus(rx: Rx, value: Byte): Rx {
    var written := rx.(status := value);
    if IsActive(value) then written else written.(stage := RxIdle, frame := [])
  }

  function FailRx(rx: Rx): Rx {
    rx.(status := Inactive(rx.status), stage := RxIdle, frame := [])
  }

  function ReceiveRequest(rx: Rx): (Rx, Option<Request>)
    requires RxSound(rx)
    decreases if rx.stage == RxData then 1 else 0
  {
    if !IsActive(rx.status) then (rx.(stage := RxIdle), None)
    else
      match rx.stage
      case RxIdle => (rx, None)
      case RxDescriptor => (rx, Some(Read(rx.nextDescriptor, 12, ReceiveDescriptor)))
      case RxData =>
        var length := Min(Min(rx.byteCount, BURST_BYTES), |rx.frame| - rx.offset);
        if length == 0 then
          ReceiveRequest(rx.(overflow := rx.offset < |rx.frame|, stage := RxCompletion))
        else
          (rx, Some(Write(rx.buffer.address, rx.frame[rx.offset..rx.offset + length], ReceiveData)))
      case RxCompletion => (rx, Some(Write(rx.currentDescriptor, WordBytes(rx.byteCount), ReceiveCompletion)))
  }

  function LoadRxDescriptor(rx: Rx, d: Descriptor): Rx {
    if !TopBit(d) then FailRx(rx)
    else
      rx.(currentDescriptor := rx.nextDescriptor, nextDescriptor := NextOf(d), byteCount := CapacityOf(d),
          buffer := BufferPointer(EndOfChain(d), AddressAfter(BufferOf(d), 2)), endOfRing := EndOfChain(d),
          stage := RxData)
  }

  function StoreRxData(rx: Rx, length: nat): Rx {
    rx.(offset := rx.offset + length, byteCount := if length < rx.byteCount then rx.byteCount - length else 0,
        buffer := rx.buffer.(address := AddressAfter(rx.buffer.address, length)))
  }

  function FinishRx(rx: Rx): Rx {
    rx.(status := if rx.endOfRing || rx.overflow then Inactive(rx.status) else rx.status,
        frame := [], stage := RxIdle)
  }

  // The transmit engine

  function WriteTxStatus(tx: Tx, value: Byte): Tx {
    var written := tx.(status := value);
    if !IsActive(value) then
      written.(inflight := if tx.inflight.Some? then Some(tx.inflight.value.(attached := false)) else None,
               stage := TxIdle, frame := [])
    else if tx.stage == TxIdle then written.(first := true, stage := TxDescriptor)
    else written
  }

  function FailTx(tx: Tx): Tx {
    tx.(status := Inactive(tx.status), stage := TxFault, frame := [])
  }

  /** A descriptor all of whose bytes are in: send, fetch the next one, or fail at the end of the chain. */
  function AfterFragment(tx: Tx): Tx {
    tx.(stage := if tx.endOfPacket then TxSend else if tx.endOfChain then TxFault else TxDescriptor,
        interruptDelay := if tx.interruptRequested && !tx.endOfPacket then Some(CYCLE_ATTOSECONDS)
                          else tx.interruptDelay)
  }

  function Submit(tx: Tx): Tx {
    tx.(inflight := Some(Context(tx.packetFirst, tx.nextDescriptor, tx.endOfChain, tx.interruptRequested, true)),
        stage := TxWire, frame := [])
  }

  function TransmitRequest(tx: Tx, ready: bool): (Tx, Option<Request>)
    decreases if tx.stage == TxData then 1 else 0
  {
    if tx.inflight.Some? then (tx, None)
    else if tx.stage == TxFault then (tx.(stage := TxIdle), Some(Underflow))
    else if !IsActive(tx.status) then (tx, None)
    else
      match tx.stage
      case TxDescriptor => (tx, Some(Read(tx.nextDescriptor, 12, TransmitDescriptor)))
      case TxData =>
        var length := Min(tx.byteCount, BURST_BYTES);
        if length == 0 then TransmitRequest(AfterFragment(tx), ready)
        else (tx, Some(Read(tx.buffer.address, length, TransmitData)))
      case TxSend => if ready then (Submit(tx), Some(Transmit(tx.frame))) else (tx, None)
      case _ => (tx, None)
  }

  function LoadTxDescriptor(tx: Tx, d: Descriptor): Tx {
    tx.(currentDescriptor := tx.nextDescriptor, nextDescriptor := NextOf(d),
        packetFirst := if tx.first then tx.nextDescriptor else tx.packetFirst, first := false,
        byteCount := CountOf(d), buffer := BufferPointer(EndOfChain(d), BufferOf(d)),
        endOfPacket := TopBit(d), endOfChain := EndOfChain(d), interruptRequested := InterruptEnabled(d),
        stage := TxData)
  }

  function TakeTxData(tx: Tx, data: seq<Byte>): Tx {
    if |tx.frame| + |data| > MAX_FRAME_BYTES then FailTx(tx)
    else
      tx.(frame := tx.frame + data, buffer := tx.buffer.(address := AddressAfter(tx.buffer.address, |data|)),
          byteCount := if |data| < tx.byteCount then tx.byteCount - |data| else 0)
  }

  /** The controller reports the end of a packet. */
  function CompleteTx(tx: Tx, status: Byte, interrupt: bool): Tx {
    var requested := if tx.inflight.Some? then tx.inflight.value.interruptRequested else tx.interruptRequested;
    var successful := BitSet(status, SUCCESS);
    var released := tx.(inflight := None,
                        interruptDelay := if requested || (!successful && interrupt) then Some(CYCLE_ATTOSECONDS)
                                          else tx.interruptDelay);
    if tx.inflight.Some? && !tx.inflight.value.attached then
      released.(status := KeepingActive(tx.status, status))
    else
      var endOfChain := tx.inflight.None? || tx.inflight.value.endOfChain;
      var continues := successful && !endOfChain && IsActive(tx.status);
      released.(status := if continues then KeepingActive(ACTIVE, status) else status,
                previousFirst := if successful && tx.inflight.Some? then tx.inflight.value.firstDescriptor
                                 else tx.previousFirst,
                stage := if continues then TxDescriptor else TxIdle,
                first := true)
  }

  // The channel

  function NextRequest(c: Channel, ready: bool): (Channel, Option<Request>)
    requires RxSound(c.rx)
  {
    if c.control.reset || c.delay != 0 then (c, None)
    else
      var turned := c.(preferReceive := !c.preferReceive);
      if c.preferReceive then
        var (rx, request) := ReceiveRequest(c.rx);
        if request.Some? then (turned.(rx := rx), request)
        else
          var (tx, other) := TransmitRequest(c.tx, ready);
          (turned.(rx := rx, tx := tx), other)
      else
        var (tx, request) := TransmitRequest(c.tx, ready);
        if request.Some? then (turned.(tx := tx), request)
        else
          var (rx, other) := ReceiveRequest(c.rx);
          (turned.(rx := rx, tx := tx), other)
  }

  function DelayFor(bytes: nat): nat {
    CYCLE_ATTOSECONDS * ((bytes + 3) / 4)
  }

  function FailRead(c: Channel, kind: ReadKind): Channel {
    if kind == ReceiveDescriptor then c.(rx := FailRx(c.rx)) else c.(tx := FailTx(c.tx))
  }

  function CompleteRead(c: Channel, kind: ReadKind, data: Option<seq<Byte>>): Channel {
    if data.None? then FailRead(c, kind)
    else
      var delayed := c.(delay := DelayFor(|data.value|));
      if kind == TransmitData then delayed.(tx := TakeTxData(c.tx, data.value))
      else if |data.value| != 12 then FailRead(delayed, kind)
      else if kind == ReceiveDescriptor then delayed.(rx := LoadRxDescriptor(c.rx, ParseDescriptor(data.value)))
      else delayed.(tx := LoadTxDescriptor(c.tx, ParseDescriptor(data.value)))
  }

  /** A stored frame raises what it must: overflow at once, its own interrupt when the timer allows. */
  function PublishFrame(c: Channel): Channel {
    var waiting := c.receiveWaiting || c.rx.interruptRequested;
    var due := c.rx.interruptRequested && c.timer.expired;
    c.(rx := FinishRx(c.rx), receiveWaiting := waiting && !due,
       control := c.control.(overflow := c.control.overflow || c.rx.overflow,
                             interrupt := c.control.interrupt || c.rx.overflow || due))
  }

  function CompleteWrite(c: Channel, kind: WriteKind, length: nat, success: bool): Channel {
    var delayed := c.(delay := DelayFor(length));
    if !success then delayed.(rx := FailRx(c.rx))
    else if kind == ReceiveData then delayed.(rx := StoreRxData(c.rx, length))
    else PublishFrame(delayed)
  }

  function AdvanceTime(c: Channel, elapsed: nat, ticks: nat): Channel {
    var timer := AdvanceTimer(c.timer, ticks);
    var sent := c.tx.interruptDelay.Some? && c.tx.interruptDelay.value <= elapsed;
    var received := timer.expired && c.receiveWaiting;
    c.(timer := timer, delay := if c.delay < elapsed then 0 else c.delay - elapsed,
       tx := c.tx.(interruptDelay := if sent || c.tx.interruptDelay.None? then None
                                     else Some(c.tx.interruptDelay.value - elapsed)),
       receiveWaiting := c.receiveWaiting && !received,
       control := c.control.(interrupt := c.control.interrupt || sent || received))
  }

  /** Interrupt and overflow are cleared by writing ones; a rising reset starts the channel afresh. */
  function WriteControl(c: Channel, value: Control): Channel {
    var control := Control(value.reset, c.control.interrupt && !value.interrupt, value.loopbackDisable,
                           c.control.overflow && !value.overflow);
    if !c.control.reset && value.reset then NewChannel(control) else c.(control := control)
  }

  function WriteTimer(c: Channel, count: nat, expired: bool): Channel {
    c.(timer := Timer(count, expired || count == 0))
  }
}
