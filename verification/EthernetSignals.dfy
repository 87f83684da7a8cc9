/**
 What the Ethernet channel shows of itself: its registers, the time its memory port is
 busy, and when its interrupt comes.
 */
module EthernetSignals {
  import opened Arithmetic
  import opened Options
  import opened HpcClock
  import opened Ethernet
  import opened Words
  import opened EthernetRun

  // Registers

  /** Reset and loopback are as written, interrupt and overflow are cleared by ones, and a rising reset starts afresh. */
  lemma ControlIsWritten(c: Channel, value: Control)
    ensures var after := WriteControl(c, value);
            && after.control.reset == value.reset && after.control.loopbackDisable == value.loopbackDisable
            && (after.control.interrupt <==> c.control.interrupt && !value.interrupt)
            && (after.control.overflow <==> c.control.overflow && !value.overflow)
            && (if value.reset && !c.control.reset then
                  && after.tx.stage == TxIdle && after.rx.stage == RxIdle && after.tx.inflight.None?
                  && !IsActive(after.tx.status) && !IsActive(after.rx.status) && after.tx.frame == [] && after.rx.frame == []
                  && after.delay == 0 && !after.receiveWaiting && after.tx.interruptDelay.None? && after.timer == Timer(0, false)
                else after == c.(control := after.control))
  {
    assert !IsActive(0);
    hide IsActive;
  }

  /** A channel in reset asks for nothing. */
  lemma ResetIsQuiet(c: Channel, ready: bool)
    requires RxSound(c.rx) && c.control.reset
    ensures NextRequest(c, ready) == (c, None)
  {
  }

  /** Stopping the receiver drops its frame; an active status leaves it at work. */
  lemma ReceiveStatusIsWritten(rx: Rx, value: Byte)
    ensures WriteRxStatus(rx, value) ==
            if IsActive(value) then rx.(status := value) else rx.(status := value, stage := RxIdle, frame := [])
  {
  }

  /** The status of a frame is kept, an active channel staying active, and the frame is taken exactly if there is room for it. */
  lemma FrameIsCaptured(c: Channel, bytes: seq<Byte>, status: Byte, interrupt: bool)
    ensures var after := AcceptFrame(c.rx, c.control.reset, bytes, status, interrupt);
            && (IsActive(after.status) <==> IsActive(c.rx.status) || IsActive(status))
            && after.status % ACTIVE == status % ACTIVE && after.status / (2 * ACTIVE) == status / (2 * ACTIVE)
            && (if Accepts(c, bytes, status) then
                  && after.stage == RxDescriptor && after.frame == bytes + [status] && after.offset == 0
                  && after.interruptRequested == interrupt && !after.overflow
                else after == c.rx.(status := after.status))
  {
    KeepingOthers(c.rx.status, status);
    hide IsActive;
  }

  lemma KeepingOthers(earlier: Byte, status: Byte)
    ensures var r := KeepingActive(earlier, status); r % ACTIVE == status % ACTIVE && r / (2 * ACTIVE) == status / (2 * ACTIVE)
  {
  }

  /** A timer set to zero has expired. */
  lemma TimerIsWritten(c: Channel, count: nat, expired: bool)
    ensures WriteTimer(c, count, expired).timer.count == count
    ensures WriteTimer(c, count, expired).timer.expired <==> expired || count == 0
    ensures WriteTimer(c, count, expired) == c.(timer := WriteTimer(c, count, expired).timer)
  {
  }

  // Failures

  /** Reading or storing that fails, or a descriptor that the channel does not own, stops the receiver and drops the frame. */
  lemma ReceiveFailureStops(c: Channel, data: seq<Byte>, kind: WriteKind, length: nat)
    requires |data| != 12 || !TopBit(ParseDescriptor(data))
    ensures Stopped(c.rx, CompleteRead(c, ReceiveDescriptor, None).rx)
    ensures Stopped(c.rx, CompleteRead(c, ReceiveDescriptor, Some(data)).rx)
    ensures Stopped(c.rx, CompleteWrite(c, kind, length, false).rx)
  {
    hide ParseDescriptor, TopBit;
    OnlyActiveGoes(c.rx.status);
  }

  predicate Stopped(before: Rx, after: Rx) {
    && after == before.(status := after.status, stage := RxIdle, frame := [])
    && !IsActive(after.status) && OtherBits(before.status, after.status)
  }

  /** All bits but ACTIVE. */
  predicate OtherBits(a: Byte, b: Byte) {
    a % ACTIVE == b % ACTIVE && a / (2 * ACTIVE) == b / (2 * ACTIVE)
  }

  lemma OnlyActiveGoes(status: Byte)
    ensures OtherBits(status, Inactive(status))
  {
  }

  /** A read that fails stops the transmitter, which then reports an underflow and is idle. */
  lemma TransmitFailureReports(c: Channel, kind: ReadKind, ready: bool)
    requires kind != ReceiveDescriptor && c.tx.inflight.None?
    ensures var tx := CompleteRead(c, kind, None).tx;
            && tx == c.tx.(status := tx.status, stage := TxFault, frame := []) && !IsActive(tx.status)
            && OtherBits(c.tx.status, tx.status)
            && TransmitRequest(tx, ready) == (tx.(stage := TxIdle), Some(Underflow))
  {
    OnlyActiveGoes(c.tx.status);
    hide IsActive, OtherBits;
  }

  // Time

  /** A cycle is a clock period rounded up to whole attoseconds. */
  lemma CycleIsRoundedUp()
    ensures (CYCLE_ATTOSECONDS - 1) * CLOCK_HZ < ATTOSECONDS_PER_SECOND <= CYCLE_ATTOSECONDS * CLOCK_HZ
  {
  }

  /** So many words hold the bytes, and no fewer do. */
  predicate AreWords(bytes: nat, words: nat) {
    4 * words >= bytes && (words > 0 ==> 4 * (words - 1) < bytes)
  }

  /** After an answer the memory port is busy for one cycle a word, and then it asks again. */
  lemma PortIsBusy(c: Channel, kind: ReadKind, data: seq<Byte>, words: nat, elapsed: nat, ticks: nat, ready: bool)
    requires AreWords(|data|, words)
    ensures var later := AdvanceTime(CompleteRead(c, kind, Some(data)), elapsed, ticks);
            && (later.delay == 0 <==> elapsed >= words * CYCLE_ATTOSECONDS)
            && (later.delay != 0 && RxSound(later.rx) ==> NextRequest(later, ready) == (later, None))
  {
    WordsOf(|data|, words);
    hide AdvanceTimer, IsActive, TakeTxData, LoadTxDescriptor, ParseDescriptor;
    hide AddressAfter, CapacityOf, NextOf, BufferOf, EndOfChain, TopBit;
  }

  lemma PortIsBusyWriting(c: Channel, kind: WriteKind, length: nat, success: bool, words: nat, elapsed: nat, ticks: nat)
    requires AreWords(length, words)
    ensures AdvanceTime(CompleteWrite(c, kind, length, success), elapsed, ticks).delay == 0
            <==> elapsed >= words * CYCLE_ATTOSECONDS
  {
    WordsOf(length, words);
    hide AdvanceTimer, StoreRxData, FinishRx, FailRx;
  }

  lemma WordsOf(bytes: nat, words: nat)
    requires AreWords(bytes, words)
    ensures DelayFor(bytes) == words * CYCLE_ATTOSECONDS
  {
    assert (bytes + 3) / 4 == words;
  }

  /** A received frame that waits for its interrupt raises it as soon as the timer has expired. */
  lemma ReceiveInterruptComes(c: Channel, elapsed: nat, ticks: nat)
    requires c.receiveWaiting && c.tx.interruptDelay.None?
    ensures var after := AdvanceTime(c, elapsed, ticks);
            var due := c.timer.expired || (c.timer.count > 0 && ticks >= c.timer.count);
            && (after.control.interrupt <==> c.control.interrupt || due) && (after.receiveWaiting <==> !due)
  {
  }

  /** The timer counts ticks down to zero, once. */
  lemma TimerCounts(timer: Timer, ticks: nat)
    ensures var after := AdvanceTimer(timer, ticks);
            && after.count == (if timer.expired then timer.count else if ticks >= timer.count then 0 else timer.count - ticks)
            && (after.expired <==> timer.expired || (timer.count > 0 && ticks >= timer.count))
  {
  }

  /** How an interval is cut into calls does not matter. */
  lemma AdvanceAdds(c: Channel, a: nat, b: nat, first: nat, second: nat)
    ensures AdvanceTime(AdvanceTime(c, a, first), b, second) == AdvanceTime(c, a + b, first + second)
  {
    TimerAdds(c.timer, first, second);
    hide AdvanceTimer;
  }

  lemma TimerAdds(timer: Timer, first: nat, second: nat)
    ensures AdvanceTimer(AdvanceTimer(timer, first), second) == AdvanceTimer(timer, first + second)
    ensures AdvanceTimer(timer, first).expired ==> AdvanceTimer(timer, first + second).expired
  {
  }

  /** Time alone raises no other interrupt and changes nothing else. */
  lemma TimeIsQuiet(c: Channel, elapsed: nat, ticks: nat)
    requires !c.receiveWaiting && c.tx.interruptDelay.None?
    ensures var after := AdvanceTime(c, elapsed, ticks);
            after == c.(timer := after.timer, delay := if elapsed >= c.delay then 0 else c.delay - elapsed)
  {
    hide AdvanceTimer;
  }

  // Turns

  /** What an engine would ask for by itself. */
  function Wants(c: Channel, receive: bool, ready: bool): Option<Request>
    requires RxSound(c.rx)
  {
    if receive then ReceiveRequest(c.rx).1 else TransmitRequest(c.tx, ready).1
  }

  /** The engines take turns: the one whose turn it is goes first, the other goes if it asks for nothing, and no turn is lost. */
  lemma EnginesTakeTurns(c: Channel, ready: bool)
    requires RxSound(c.rx) && !c.control.reset && c.delay == 0
    ensures var (after, request) := NextRequest(c, ready);
            var first, second := Wants(c, c.preferReceive, ready), Wants(c, !c.preferReceive, ready);
            && request == (if first.Some? then first else second)
            && after.preferReceive == !c.preferReceive
            && (request.Some? <==> first.Some? || second.Some?)
  {
    hide ReceiveRequest, TransmitRequest;
  }

  /** A packet that is ready waits for the controller. */
  lemma PacketWaits(tx: Tx)
    requires tx.stage == TxSend && tx.inflight.None?
    ensures TransmitRequest(tx, false) == (tx, None)
    ensures TransmitRequest(tx, true).1 == if IsActive(tx.status) then Some(Transmit(tx.frame)) else None
  {
    hide IsActive;
  }

  /** A descriptor inside a packet that asks for an interrupt gets it one cycle after its buffer, and no other does. */
  lemma BufferInterrupts(tx: Tx, ready: bool)
    requires tx.stage == TxData && tx.byteCount == 0 && tx.inflight.None? && IsActive(tx.status)
    ensures TransmitRequest(tx, ready).0.interruptDelay ==
            if tx.interruptRequested && !tx.endOfPacket then Some(CYCLE_ATTOSECONDS) else tx.interruptDelay
  {
    hide IsActive;
    assert TransmitRequest(tx, ready) == TransmitRequest(AfterFragment(tx), ready);
  }

  /** The registers that show where the engines are: the descriptor just read, and the next one. */
  lemma DescriptorsAreShown(c: Channel, data: seq<Byte>)
    requires |data| == 12
    ensures var d := ParseDescriptor(data);
            var tx, rx := CompleteRead(c, TransmitDescriptor, Some(data)).tx, CompleteRead(c, ReceiveDescriptor, Some(data)).rx;
            && tx.currentDescriptor == c.tx.nextDescriptor && tx.nextDescriptor == NextOf(d)
            && (TopBit(d) ==> rx.currentDescriptor == c.rx.nextDescriptor && rx.nextDescriptor == NextOf(d))
  {
    hide ParseDescriptor, TopBit, NextOf, CountOf, BufferOf, EndOfChain, InterruptEnabled, CapacityOf, AddressAfter;
  }
}
